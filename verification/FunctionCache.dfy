/** The memoising `LamiaFunction` and the function registry: arguments serialised to a
    cache key, a cache of at most 1000 results, and name lists by context and type.
    What a function computes is a parameter; the repository's own bodies are constants.
 */
module FunctionCache {
  import opened Common
  import opened Order

  type Args = map<string, string>

  // ---------- the key ----------

  /** Each argument as name=value; in key order. */
  ghost function Pairs(args: Args): string
    decreases |args|
  {
    if args == map[] then ""
    else
      var k := Least(args.Keys);
      k + "=" + (args[k] + ";" + Pairs(args - {k}))
  }

  ghost function CacheKey(name: string, args: Args): string {
    name + ":" + Pairs(args)
  }

  /** Argument names without '=' and values without ';'. */
  ghost predicate Plain(args: Args) {
    forall k | k in args :: '=' !in k && ';' !in args[k]
  }

  /** A text is determined by what precedes its first delimiter and what follows it. */
  lemma SplitAtFirst(x: string, y: string, c: char, r: string, s: string)
    requires c !in x && c !in y && x + [c] + r == y + [c] + s
    ensures x == y && r == s
  {
    var t, u := x + [c] + r, y + [c] + s;
    assert t[|x|] == c && u[|y|] == c;
    forall i | 0 <= i < |x| ensures t[i] != c {
      assert t[i] == x[i];
    }
    forall i | 0 <= i < |y| ensures u[i] != c {
      assert u[i] == y[i];
    }
    assert |x| == |y|;
    assert t[..|x|] == x && u[..|x|] == y;
    assert t[|x| + 1..] == r && u[|x| + 1..] == s;
  }

  lemma TakeOne(a: Args, k: string)
    requires k in a
    ensures a == (a - {k})[k := a[k]] && |a - {k}| < |a|
  {
    assert (a - {k}).Keys == a.Keys - {k};
  }

  lemma PairsUnfold(a: Args)
    requires a != map[]
    ensures var k := Least(a.Keys);
      Pairs(a) == k + "=" + (a[k] + ";" + Pairs(a - {k})) && a == (a - {k})[k := a[k]] && |a - {k}| < |a|
  {
    TakeOne(a, Least(a.Keys));
  }

  lemma {:induction false} PairsInjective(a: Args, b: Args)
    requires Plain(a) && Plain(b) && Pairs(a) == Pairs(b)
    ensures a == b
    decreases |a|
  {
    if a != map[] && b != map[] {
      PairsUnfold(a);
      PairsUnfold(b);
      hide Pairs, IsLeast;
      var j, k := Least(a.Keys), Least(b.Keys);
      var p, q := Pairs(a - {j}), Pairs(b - {k});
      SplitAtFirst(j, k, '=', a[j] + ";" + p, b[k] + ";" + q);
      SplitAtFirst(a[j], b[k], ';', p, q);
      PairsInjective(a - {j}, b - {k});
    } else {
      PairsEmpty(a);
      PairsEmpty(b);
    }
  }

  lemma KeyGrows(key: string, k: string, v: string, rest: string)
    ensures key + (k + "=" + (v + ";" + rest)) == key + (k + "=" + v + ";") + rest
  {
  }

  lemma PairsEmpty(a: Args)
    ensures Pairs(a) == "" <==> a == map[]
  {
    if a != map[] {
      PairsUnfold(a);
    }
  }

  /** The key is injective on plain argument maps. */
  lemma KeyInjective(name: string, a: Args, b: Args)
    requires Plain(a) && Plain(b) && CacheKey(name, a) == CacheKey(name, b)
    ensures a == b
  {
    var n := |name + ":"|;
    assert CacheKey(name, a)[n..] == Pairs(a) && CacheKey(name, b)[n..] == Pairs(b);
    PairsInjective(a, b);
  }

  lemma {:induction false} PairsAppend(a: Args, k: string, v: string)
    requires forall o | o in a :: o != k && Leq(o, k)
    ensures Pairs(a[k := v]) == Pairs(a) + (k + "=" + v + ";")
    decreases |a|
  {
    hide *;
    if a == map[] {
      PairsOfOne(k, v);
      PairsEmpty(a);
      assert "" + (k + "=" + v + ";") == k + "=" + v + ";";
    } else {
      FirstStays(a, k, v);
      var first := Least(a.Keys);
      PairsUnfold(a);
      PairsUnfold(a[k := v]);
      PairsAppend(a - {first}, k, v);
      PairAssociates(first, a[first], Pairs(a - {first}), k + "=" + v + ";");
    }
  }

  lemma FirstStays(a: Args, k: string, v: string)
    requires a != map[] && forall o | o in a :: o != k && Leq(o, k)
    ensures var first := Least(a.Keys);
      && first in a && Least(a[k := v].Keys) == first && a[k := v][first] == a[first]
      && a[k := v] - {first} == (a - {first})[k := v]
      && forall o | o in a - {first} :: o != k && Leq(o, k)
  {
    var first := Least(a.Keys);
    assert a[k := v].Keys == a.Keys + {k};
    LeastIs(first, a[k := v].Keys);
  }

  lemma PairAssociates(k: string, v: string, rest: string, last: string)
    ensures k + "=" + (v + ";" + (rest + last)) == k + "=" + (v + ";" + rest) + last
  {
  }

  /** The key: the name and a colon, then for each argument, in the order of the names, the name, an equals
      sign, the value and a semicolon. */
  lemma KeySpelled(name: string, a: Args, k: string, v: string)
    requires forall o | o in a :: o != k && Leq(o, k)
    ensures CacheKey(name, map[]) == name + ":"
    ensures CacheKey(name, a[k := v]) == CacheKey(name, a) + k + "=" + v + ";"
  {
    hide Pairs;
    PairsAppend(a, k, v);
    PairsEmpty(map[]);
    assert name + ":" + "" == name + ":";
    assert name + ":" + (Pairs(a) + (k + "=" + v + ";")) == name + ":" + Pairs(a) + k + "=" + v + ";";
  }

  // ---------- functions ----------

  datatype Context = ServerSide | ClientSide | Universal | AiAccelerated | OtherContext

  datatype Parameter = Parameter(name: string, optional: bool, validator: Option<string -> bool>, allowed: seq<string>)

  /** A validator decides alone; otherwise a non-empty list of allowed values does. */
  predicate Accepts(p: Parameter, value: string) {
    if p.validator.Some? then p.validator.value(value)
    else p.allowed == [] || value in p.allowed
  }

  ghost predicate ParameterMet(p: Parameter, args: Args) {
    if p.name in args then Accepts(p, args[p.name]) else p.optional
  }

  ghost predicate ValidArgs(parameters: seq<Parameter>, args: Args) {
    forall i | 0 <= i < |parameters| :: ParameterMet(parameters[i], args)
  }

  type Body = (Context, Args) -> string

  datatype Function = Function(name: string, context: Context, parameters: seq<Parameter>, body: Body)

  /** The repository's bodies: one fixed text for each context. */
  function FixedBody(c: Context, args: Args): (r: string)
    ensures r != ""
  {
    match c
    case ServerSide => "// Server-side execution result"
    case ClientSide => "// Client-side execution result"
    case Universal => "// Universal execution result"
    case AiAccelerated => "// AI-accelerated execution result"
    case OtherContext => "// Standard execution result"
  }

  datatype Outcome = Returned(value: string) | Rejected

  /** Validate and run, without any cache. */
  ghost function Uncached(f: Function, args: Args): Outcome {
    if ValidArgs(f.parameters, args) then Returned(f.body(f.context, args)) else Rejected
  }

  // ---------- the cache as a state machine ----------

  type Cache = map<string, string>

  const MAX_SIZE := 1000

  /** A missing entry reads as the empty text. */
  function Lookup(cache: Cache, key: string): string {
    if key in cache then cache[key] else ""
  }

  /** A full cache first gives up its first key: the one least in key order, not the
      least recently used one. */
  ghost function Insert(cache: Cache, key: string, value: string): Cache {
    (if |cache| >= MAX_SIZE then cache - {Least(cache.Keys)} else cache)[key := value]
  }

  ghost function CallOutcome(f: Function, cache: Cache, args: Args): Outcome {
    var cached := Lookup(cache, CacheKey(f.name, args));
    if cached != "" then Returned(cached) else Uncached(f, args)
  }

  ghost function CallCache(f: Function, cache: Cache, args: Args): Cache {
    var key := CacheKey(f.name, args);
    if Lookup(cache, key) != "" || !ValidArgs(f.parameters, args) then cache
    else Insert(cache, key, f.body(f.context, args))
  }

  /** The entry was made by a valid call from the set. */
  ghost predicate Made(f: Function, calls: iset<Args>, key: string, value: string, args: Args) {
    args in calls && ValidArgs(f.parameters, args) && key == CacheKey(f.name, args) && value == f.body(f.context, args)
  }

  ghost predicate Sound(f: Function, calls: iset<Args>, cache: Cache) {
    && |cache| <= MAX_SIZE
    && forall key | key in cache :: exists args :: Made(f, calls, key, cache[key], args)
  }

  /** The second call finds the answer to the first one, which is not its own. */
  ghost predicate Clash(f: Function, first: Args, second: Args) {
    && CacheKey(f.name, first) == CacheKey(f.name, second)
    && ValidArgs(f.parameters, first) && f.body(f.context, first) != ""
    && Uncached(f, first) != Uncached(f, second)
  }

  ghost predicate ClashFree(f: Function, calls: iset<Args>) {
    forall a, b | a in calls && b in calls :: !Clash(f, a, b)
  }

  /** A new result is entered as it is, and nothing else changes, except that a cache of 1000 entries
      first loses the one whose key comes first. */
  lemma InsertMeaning(cache: Cache, key: string, value: string)
    ensures |cache| < 1000 ==> Insert(cache, key, value) == cache[key := value]
    ensures |cache| >= 1000 ==> exists k | k in cache ::
      (forall o | o in cache :: Leq(k, o)) && Insert(cache, key, value) == (cache - {k})[key := value]
  {
    if |cache| >= 1000 {
      var k := Least(cache.Keys);
      assert IsLeast(k, cache.Keys);
    }
  }

  lemma InsertBounded(cache: Cache, key: string, value: string)
    requires |cache| <= MAX_SIZE
    ensures |Insert(cache, key, value)| <= MAX_SIZE
  {
    if |cache| >= MAX_SIZE {
      var k := Least(cache.Keys);
      assert (cache - {k}).Keys == cache.Keys - {k};
      assert |cache - {k}| == |cache| - 1;
      assert (cache - {k})[key := value].Keys == (cache - {k}).Keys + {key};
    } else {
      assert cache[key := value].Keys == cache.Keys + {key};
    }
  }

  /** One call on a sound cache answers as if there were no cache, and keeps it sound. */
  lemma CallIsTransparent(f: Function, calls: iset<Args>, cache: Cache, args: Args)
    requires ClashFree(f, calls) && Sound(f, calls, cache) && args in calls
    ensures CallOutcome(f, cache, args) == Uncached(f, args)
    ensures Sound(f, calls, CallCache(f, cache, args))
  {
    hide CacheKey, ValidArgs;
    var key := CacheKey(f.name, args);
    if key in cache {
      var made :| Made(f, calls, key, cache[key], made);
      assert !Clash(f, made, args);
    }
    if Lookup(cache, key) == "" && ValidArgs(f.parameters, args) {
      InsertIsSound(f, calls, cache, args);
    }
  }

  lemma InsertIsSound(f: Function, calls: iset<Args>, cache: Cache, args: Args)
    requires Sound(f, calls, cache) && args in calls && ValidArgs(f.parameters, args)
    ensures Sound(f, calls, Insert(cache, CacheKey(f.name, args), f.body(f.context, args)))
  {
    hide CacheKey, ValidArgs;
    var key, value := CacheKey(f.name, args), f.body(f.context, args);
    var next := Insert(cache, key, value);
    InsertBounded(cache, key, value);
    forall k | k in next ensures exists a :: Made(f, calls, k, next[k], a) {
      if k == key {
        assert Made(f, calls, k, next[k], args);
      } else {
        assert k in cache && next[k] == cache[k];
      }
    }
  }

  ghost function RunOutcomes(f: Function, cache: Cache, calls: seq<Args>): seq<Outcome>
    decreases |calls|
  {
    if calls == [] then []
    else [CallOutcome(f, cache, calls[0])] + RunOutcomes(f, CallCache(f, cache, calls[0]), calls[1..])
  }

  ghost function RunCache(f: Function, cache: Cache, calls: seq<Args>): Cache
    decreases |calls|
  {
    if calls == [] then cache else RunCache(f, CallCache(f, cache, calls[0]), calls[1..])
  }

  /** In any run of calls from a set without clashes, across evictions, every call returns or
      is rejected exactly as without a cache, and the cache never holds more than 1000 entries. */
  lemma {:induction false} RunsAreTransparent(f: Function, allowed: iset<Args>, cache: Cache, calls: seq<Args>)
    requires ClashFree(f, allowed) && Sound(f, allowed, cache) && forall i | 0 <= i < |calls| :: calls[i] in allowed
    ensures Transparent(f, cache, calls) && Sound(f, allowed, RunCache(f, cache, calls))
    decreases |calls|
  {
    hide Sound, CallOutcome, CallCache, Uncached, ClashFree;
    if calls != [] {
      CallIsTransparent(f, allowed, cache, calls[0]);
      var later := CallCache(f, cache, calls[0]);
      RunsAreTransparent(f, allowed, later, calls[1..]);
      forall i | 0 <= i < |calls| ensures RunOutcomes(f, cache, calls)[i] == Uncached(f, calls[i]) {
        if i > 0 {
          assert RunOutcomes(f, cache, calls)[i] == RunOutcomes(f, later, calls[1..])[i - 1];
        }
      }
    }
  }

  /** Every call of the run answers as without the cache. */
  ghost predicate Transparent(f: Function, cache: Cache, calls: seq<Args>) {
    var outcomes := RunOutcomes(f, cache, calls);
    |outcomes| == |calls| && forall i | 0 <= i < |calls| :: outcomes[i] == Uncached(f, calls[i])
  }

  ghost predicate AlwaysTransparent(f: Function, allowed: iset<Args>) {
    forall calls: seq<Args> | (forall i | 0 <= i < |calls| :: calls[i] in allowed) :: Transparent(f, map[], calls)
  }

  /** A clash shows in a run of two calls. */
  lemma ClashShows(f: Function, first: Args, second: Args)
    requires Clash(f, first, second)
    ensures !Transparent(f, map[], [first, second])
  {
    hide CacheKey, Insert, ValidArgs;
    var cache: Cache := map[];
    var key, value := CacheKey(f.name, first), f.body(f.context, first);
    var later := CallCache(f, cache, first);
    InsertedIsFound(cache, key, value);
    assert later == Insert(cache, key, value);
    assert CallOutcome(f, later, second) == Uncached(f, first);
    assert [first, second][1..] == [second];
    assert RunOutcomes(f, later, [second])[0] == CallOutcome(f, later, second);
    assert RunOutcomes(f, cache, [first, second])[1] == RunOutcomes(f, later, [second])[0];
  }

  /** A set of calls is answered as without the cache, in every run that starts with an empty
      cache, exactly when no two of them clash. */
  lemma TransparentIff(f: Function, allowed: iset<Args>)
    ensures AlwaysTransparent(f, allowed) <==> ClashFree(f, allowed)
  {
    hide Transparent, Clash;
    if ClashFree(f, allowed) {
      forall calls: seq<Args> | (forall i | 0 <= i < |calls| :: calls[i] in allowed)
          ensures Transparent(f, map[], calls) {
        RunsAreTransparent(f, allowed, map[], calls);
      }
    }
    if AlwaysTransparent(f, allowed) {
      forall a, b | a in allowed && b in allowed ensures !Clash(f, a, b) {
        var calls := [a, b];
        assert Transparent(f, map[], calls);
        if Clash(f, a, b) {
          ClashShows(f, a, b);
        }
      }
    }
  }

  ghost function PlainCalls(): iset<Args> {
    iset args: Args | Plain(args)
  }

  lemma PlainClashFree(f: Function)
    ensures ClashFree(f, PlainCalls())
  {
    hide CacheKey;
    forall a, b | a in PlainCalls() && b in PlainCalls() ensures !Clash(f, a, b) {
      if CacheKey(f.name, a) == CacheKey(f.name, b) {
        KeyInjective(f.name, a, b);
      }
    }
  }

  /** Plain calls never clash, whatever the function is. */
  lemma PlainRunsAreTransparent(f: Function, calls: seq<Args>)
    requires forall i | 0 <= i < |calls| :: Plain(calls[i])
    ensures Transparent(f, map[], calls) && |RunCache(f, map[], calls)| <= 1000
  {
    hide Transparent, ClashFree, Plain;
    PlainClashFree(f);
    RunsAreTransparent(f, PlainCalls(), map[], calls);
  }

  /** What the lists of allowed values decide, over whole runs: a plain call is rejected if some parameter
      without a validator has a list that does not hold the call's value, or is required and missing, and
      gets the body's own text if every parameter's value stands in its list. */
  lemma ListsDecide(f: Function, calls: seq<Args>, i: nat)
    requires i < |calls| && forall k | 0 <= k < |calls| :: Plain(calls[k])
    requires forall p | p in f.parameters :: p.validator.None?
    ensures
      (forall p | p in f.parameters :: p.name in calls[i]
          && exists j | 0 <= j < |p.allowed| :: p.allowed[j] == calls[i][p.name]) ==>
      i < |RunOutcomes(f, map[], calls)| && RunOutcomes(f, map[], calls)[i] == Returned(f.body(f.context, calls[i]))
    ensures
      (exists p | p in f.parameters ::
          if p.name in calls[i]
          then p.allowed != [] && forall j | 0 <= j < |p.allowed| :: p.allowed[j] != calls[i][p.name]
          else !p.optional) ==>
      i < |RunOutcomes(f, map[], calls)| && RunOutcomes(f, map[], calls)[i] == Rejected
  {
    hide RunOutcomes, RunCache, CacheKey, Plain;
    PlainRunsAreTransparent(f, calls);
    var args := calls[i];
    assert RunOutcomes(f, map[], calls)[i] == Uncached(f, args);
    forall p | p in f.parameters && !ParameterMet(p, args) ensures !ValidArgs(f.parameters, args) {
      var k :| 0 <= k < |f.parameters| && f.parameters[k] == p;
    }
  }

  /** The bodies of the repository ignore the arguments and never return an empty text: there
      two calls clash exactly when they share a key and only the first is valid, and otherwise
      every call of a run returns the text of its context or is rejected. */
  lemma FixedBodyRuns(name: string, context: Context, parameters: seq<Parameter>, calls: seq<Args>)
    ensures var f := Function(name, context, parameters, FixedBody);
      && (forall a, b :: Clash(f, a, b) <==>
           CacheKey(name, a) == CacheKey(name, b) && ValidArgs(parameters, a) && !ValidArgs(parameters, b))
      && (ClashFree(f, iset a | a in calls) ==>
           && Transparent(f, map[], calls)
           && forall i | 0 <= i < |calls| && ValidArgs(parameters, calls[i]) ::
                RunOutcomes(f, map[], calls)[i] == Returned(
                  if context.ServerSide? then "// Server-side execution result"
                  else if context.ClientSide? then "// Client-side execution result"
                  else if context.Universal? then "// Universal execution result"
                  else if context.AiAccelerated? then "// AI-accelerated execution result"
                  else "// Standard execution result"))
  {
    hide CacheKey, ValidArgs, RunOutcomes;
    var f := Function(name, context, parameters, FixedBody);
    var allowed := iset a | a in calls;
    if ClashFree(f, allowed) {
      RunsAreTransparent(f, allowed, map[], calls);
    }
  }

  lemma PairsOfTwo(a: string, v: string, b: string, w: string)
    requires a != b && Leq(a, b)
    ensures Pairs(map[a := v, b := w]) == a + "=" + v + ";" + (b + "=" + w + ";")
  {
    var m := map[a := v, b := w];
    LeqTotal(a, a);
    assert m.Keys == {a, b} && IsLeast(a, m.Keys);
    LeastIs(a, m.Keys);
    assert m - {a} == map[b := w];
    PairsOfOne(b, w);
  }

  lemma InsertedIsFound(cache: Cache, key: string, value: string)
    ensures Lookup(Insert(cache, key, value), key) == value
  {
  }

  lemma PairsOfOne(a: string, v: string)
    ensures Pairs(map[a := v]) == a + "=" + v + ";"
  {
    var m := map[a := v];
    LeqTotal(a, a);
    assert m.Keys == {a} && IsLeast(a, m.Keys);
    LeastIs(a, m.Keys);
    assert m - {a} == map[];
  }

  /** With a ';' in a value two argument maps share a key, and a call that must be
      rejected is answered from the cache. */
  lemma SharedKeyBreaksTransparency(f: Function, cache: Cache)
    requires f.parameters == [Parameter("b", false, None, [])] && cache == map[]
    requires f.body(f.context, map["a" := "1", "b" := "2"]) != ""
    ensures var first, second := map["a" := "1", "b" := "2"], map["a" := "1;b=2"];
      var after := CallCache(f, cache, first);
      && CallOutcome(f, after, second) == Returned(f.body(f.context, first)) && Uncached(f, second) == Rejected
      && Clash(f, first, second)
  {
    hide Pairs, Insert;
    var first, second := map["a" := "1", "b" := "2"], map["a" := "1;b=2"];
    InsertedIsFound(cache, CacheKey(f.name, first), f.body(f.context, first));
    PairsOfTwo("a", "1", "b", "2");
    PairsOfOne("a", "1;b=2");
    assert Pairs(first) == "a=1;b=2;" == Pairs(second);
    assert ValidArgs(f.parameters, first);
    assert !ParameterMet(f.parameters[0], second);
  }

  /** A parameter added after a call is not asked when that call is made again: the answer is
      the wrong one exactly when the call does not meet the new parameter. */
  lemma CachedCallsIgnoreNewParameters(f: Function, calls: iset<Args>, cache: Cache, args: Args, p: Parameter)
    requires ClashFree(f, calls) && Sound(f, calls, cache) && args in calls
    requires ValidArgs(f.parameters, args) && f.body(f.context, args) != ""
    ensures var g := f.(parameters := f.parameters + [p]);
      var again := CallOutcome(g, CallCache(f, cache, args), args);
      && again == Returned(f.body(f.context, args))
      && (again == Uncached(g, args) <==> ParameterMet(p, args))
  {
    hide CacheKey, ParameterMet, Insert, Clash;
    CallIsTransparent(f, calls, cache, args);
    var key := CacheKey(f.name, args);
    InsertedIsFound(cache, key, f.body(f.context, args));
    OneMore(f.parameters, p, args);
  }

  lemma OneMore(parameters: seq<Parameter>, p: Parameter, args: Args)
    ensures ValidArgs(parameters + [p], args) <==> ValidArgs(parameters, args) && ParameterMet(p, args)
  {
    hide ParameterMet;
    var all := parameters + [p];
    assert all[|parameters|] == p;
    assert forall i | 0 <= i < |parameters| :: all[i] == parameters[i];
  }

  // ---------- the function object ----------

  datatype Kind = Kind(number: nat)

  class LamiaFunction {
    const name: string
    const kind: Kind
    const context: Context
    const body: Body
    var parameters: seq<Parameter>
    var compiled: bool
    var cache: Cache
    var callCount: nat

    constructor (name: string, kind: Kind, context: Context, body: Body)
      ensures Value() == Function(name, context, [], body) && this.kind == kind
      ensures cache == map[] && callCount == 0 && !compiled
    {
      this.name, this.kind, this.context, this.body := name, kind, context, body;
      parameters, compiled, cache, callCount := [], false, map[], 0;
    }

    function Value(): Function
      reads this`parameters
    {
      Function(name, context, parameters, body)
    }

    method AddParameter(p: Parameter)
      modifies this`parameters
      ensures parameters == old(parameters) + [p]
    {
      parameters := parameters + [p];
    }

    method ValidateParameters(args: Args) returns (ok: bool)
      ensures ok <==> ValidArgs(parameters, args)
      ensures ok <==> forall i | 0 <= i < |parameters| ::
        var p := parameters[i];
        if p.name !in args then p.optional
        else if p.validator.Some? then p.validator.value(args[p.name])
        else p.allowed == [] || exists j | 0 <= j < |p.allowed| :: p.allowed[j] == args[p.name]
    {
      for i := 0 to |parameters|
        invariant forall k | 0 <= k < i :: ParameterMet(parameters[k], args)
      {
        var p := parameters[i];
        if !p.optional && p.name !in args {
          assert !ParameterMet(parameters[i], args);
          return false;
        }
        if p.name in args && !Accepts(p, args[p.name]) {
          assert !ParameterMet(parameters[i], args);
          return false;
        }
        assert ParameterMet(parameters[i], args);
      }
      return true;
    }

    method GenerateCacheKey(args: Args) returns (key: string)
      ensures key == CacheKey(name, args)
    {
      hide Pairs, Least;
      key := name + ":";
      var rest := args;
      while rest != map[]
        invariant key + Pairs(rest) == CacheKey(name, args)
        decreases |rest|
      {
        PairsUnfold(rest);
        var k := First(rest.Keys);
        var pair := k + "=" + rest[k] + ";";
        KeyGrows(key, k, rest[k], Pairs(rest - {k}));
        key := key + pair;
        rest := rest - {k};
      }
      PairsEmpty(rest);
    }

    method CacheResult(key: string, result: string)
      modifies this`cache
      ensures cache == Insert(old(cache), key, result)
    {
      if |cache| >= MAX_SIZE {
        var k := First(cache.Keys);
        cache := cache - {k};
      }
      cache := cache[key := result];
    }

    /** Look up, else validate, compile, run and store. */
    method Execute(args: Args) returns (outcome: Outcome)
      modifies this
      ensures outcome == CallOutcome(Value(), old(cache), args)
      ensures cache == CallCache(Value(), old(cache), args)
      ensures parameters == old(parameters) && callCount == old(callCount) + 1
      ensures compiled == (old(compiled) || (outcome.Returned? && Lookup(old(cache), CacheKey(name, args)) == ""))
    {
      callCount := callCount + 1;
      var key := GenerateCacheKey(args);
      var cached := Lookup(cache, key);
      if cached != "" {
        return Returned(cached);
      }
      var valid := ValidateParameters(args);
      if !valid {
        return Rejected;
      }
      if !compiled {
        compiled := true;
      }
      var result := body(context, args);
      CacheResult(key, result);
      return Returned(result);
    }
  }

  // ---------- the registry ----------

  /** Name lists: each registered name stands once, in the list of its own class. */
  ghost predicate Partition<C(!new)>(lists: map<C, seq<string>>, classOf: map<string, C>) {
    && (forall c | c in lists :: forall i, j | 0 <= i < j < |lists[c]| :: lists[c][i] != lists[c][j])
    && (forall c, name | c in lists && name in lists[c] :: name in classOf && classOf[name] == c)
    && (forall name | name in classOf :: classOf[name] in lists && name in lists[classOf[name]])
  }

  function Push<C(==)>(lists: map<C, seq<string>>, c: C, name: string): map<C, seq<string>> {
    lists[c := (if c in lists then lists[c] else []) + [name]]
  }

  lemma PushKeepsPartition<C(!new)>(lists: map<C, seq<string>>, classOf: map<string, C>, c: C, name: string)
    requires Partition(lists, classOf) && name !in classOf
    ensures Partition(Push(lists, c, name), classOf[name := c])
  {
    var before := if c in lists then lists[c] else [];
    assert name !in before;
    assert Push(lists, c, name)[c] == before + [name];
    assert name in Push(lists, c, name)[c];
  }

  /** The name comes last in the list of its own class, and no other list changes. */
  ghost predicate Joins<C(!new)>(before: map<C, seq<string>>, c: C, name: string, after: map<C, seq<string>>) {
    && c in after && after[c] == (if c in before then before[c] else []) + [name]
    && forall d | d != c :: (d in after <==> d in before) && (d in after ==> after[d] == before[d])
  }

  lemma PushJoins<C(!new)>(lists: map<C, seq<string>>, c: C, name: string)
    ensures Joins(lists, c, name, Push(lists, c, name))
  {
  }

  ghost function ContextsOf(functions: map<string, LamiaFunction>): map<string, Context> {
    map n | n in functions :: functions[n].context
  }

  ghost function KindsOf(functions: map<string, LamiaFunction>): map<string, Kind> {
    map n | n in functions :: functions[n].kind
  }

  lemma RegistrationKeepsLists(functions: map<string, LamiaFunction>,
                               byContext: map<Context, seq<string>>, byKind: map<Kind, seq<string>>, f: LamiaFunction)
    requires Partition(byContext, ContextsOf(functions)) && Partition(byKind, KindsOf(functions))
        && f.name !in functions
    ensures Partition(Push(byContext, f.context, f.name), ContextsOf(functions[f.name := f]))
    ensures Partition(Push(byKind, f.kind, f.name), KindsOf(functions[f.name := f]))
  {
    hide Partition, Push, ContextsOf, KindsOf;
    ClassesAfter(functions, f);
    PushKeepsPartition(byContext, ContextsOf(functions), f.context, f.name);
    PushKeepsPartition(byKind, KindsOf(functions), f.kind, f.name);
  }

  lemma ClassesAfter(functions: map<string, LamiaFunction>, f: LamiaFunction)
    requires f.name !in functions
    ensures f.name !in ContextsOf(functions) && f.name !in KindsOf(functions)
    ensures ContextsOf(functions[f.name := f]) == ContextsOf(functions)[f.name := f.context]
    ensures KindsOf(functions[f.name := f]) == KindsOf(functions)[f.name := f.kind]
  {
  }

  class LamiaFunctionRegistry {
    var functions: map<string, LamiaFunction>
    var byContext: map<Context, seq<string>>
    var byKind: map<Kind, seq<string>>
    var totalCalls: nat

    ghost predicate Valid()
      reads this
    {
      && (forall n | n in functions :: functions[n].name == n)
      && Partition(byContext, ContextsOf(functions)) && Partition(byKind, KindsOf(functions))
    }

    constructor ()
      ensures Valid() && functions == map[] && totalCalls == 0
    {
      functions, byContext, byKind, totalCalls := map[], map[], map[], 0;
    }

    /** Only a new name is registered; it joins the list of its context and of its type. */
    method RegisterFunction(f: LamiaFunction) returns (ok: bool)
      requires Valid()
      modifies this
      ensures Valid() && totalCalls == old(totalCalls)
      ensures ok <==> f.name !in old(functions)
      ensures functions == if ok then old(functions)[f.name := f] else old(functions)
      ensures byContext == if ok then Push(old(byContext), f.context, f.name) else old(byContext)
      ensures byKind == if ok then Push(old(byKind), f.kind, f.name) else old(byKind)
      ensures ok ==> Joins(old(byContext), f.context, f.name, byContext) && Joins(old(byKind), f.kind, f.name, byKind)
    {
      if f.name in functions {
        return false;
      }
      hide Partition, Push, ContextsOf, KindsOf, Joins;
      RegistrationKeepsLists(functions, byContext, byKind, f);
      PushJoins(byContext, f.context, f.name);
      PushJoins(byKind, f.kind, f.name);
      functions := functions[f.name := f];
      byContext := Push(byContext, f.context, f.name);
      byKind := Push(byKind, f.kind, f.name);
      return true;
    }

    /** An unknown name is an error; otherwise the call is the function's own. */
    method ExecuteFunction(name: string, args: Args) returns (outcome: Option<Outcome>)
      requires Valid()
      modifies this`totalCalls, if name in functions then {functions[name]} else {}
      ensures outcome.Some? <==> name in functions
      ensures name in functions ==>
        && totalCalls == old(totalCalls) + 1
        && outcome.value == CallOutcome(functions[name].Value(), old(functions[name].cache), args)
        && functions[name].cache == CallCache(functions[name].Value(), old(functions[name].cache), args)
      ensures name !in functions ==> totalCalls == old(totalCalls)
    {
      if name !in functions {
        return None;
      }
      totalCalls := totalCalls + 1;
      var result := functions[name].Execute(args);
      return Some(result);
    }
  }
}
