/** Macro expansions and the call sites that lead from each to the expansions it came from:
    a validated acyclic graph, its backtraces, and its extension. */
module ExpansionGraph {
  import opened Text

  newtype Id = i: int | 0 <= i < 0x1_0000_0000

  datatype Site = Site(originalRange: Range, expansion: Option<Id>)

  datatype Expansion = Expansion(id: Id, component: string, hook: string, callSites: seq<Site>, definitionSite: Option<Site>)

  datatype Error =
    | DuplicateId(id: Id)
    | MissingCallSite(id: Id)
    | BlankComponent(id: Id)
    | BlankHook(id: Id)
    | UnknownReference(id: Id, referenced: Id)
    | Cycle(id: Id)
    | IdExhausted

  datatype Result<+T> = Ok(value: T) | Err(error: Error)

  /** An ordered map: the ids in ascending order, and what they stand for. */
  datatype Graph = Graph(ids: seq<Id>, at: map<Id, Expansion>)

  // ------------------------------------------------------------------------- paths

  /** `b` is where a call site of `a` was expanded from. */
  predicate Edge(at: map<Id, Expansion>, a: Id, b: Id) {
    a in at && exists s :: 0 <= s < |at[a].callSites| && at[a].callSites[s].expansion == Some(b)
  }

  ghost predicate Path(at: map<Id, Expansion>, path: seq<Id>) {
    path != [] && forall k :: 0 <= k < |path| - 1 ==> Edge(at, path[k], path[k + 1])
  }

  ghost predicate CycleAt(at: map<Id, Expansion>, path: seq<Id>) {
    Path(at, path) && |path| > 1 && path[0] == path[|path| - 1]
  }

  ghost predicate Acyclic(at: map<Id, Expansion>) { forall path :: !CycleAt(at, path) }

  predicate NoRepeats(path: seq<Id>) { forall i, j :: 0 <= i < j < |path| ==> path[i] != path[j] }

  lemma PathPart(at: map<Id, Expansion>, path: seq<Id>, i: nat, j: nat)
    requires Path(at, path) && i <= j < |path|
    ensures Path(at, path[i..j + 1])
  {
    var part := path[i..j + 1];
    forall k | 0 <= k < |part| - 1 ensures Edge(at, part[k], part[k + 1]) {
      assert part[k] == path[i + k] && part[k + 1] == path[i + k + 1];
      assert Edge(at, path[i + k], path[i + k + 1]);
    }
  }

  lemma PathMore(at: map<Id, Expansion>, path: seq<Id>, id: Id)
    requires Path(at, path) && Edge(at, path[|path| - 1], id)
    ensures Path(at, path + [id])
  {
    var more := path + [id];
    forall k | 0 <= k < |more| - 1 ensures Edge(at, more[k], more[k + 1]) {
      if k + 1 < |path| { assert Edge(at, path[k], path[k + 1]); }
    }
  }

  /** In an acyclic graph no path comes back. */
  lemma PathsNeverRepeat(at: map<Id, Expansion>, path: seq<Id>)
    requires Acyclic(at) && Path(at, path)
    ensures NoRepeats(path)
  {
    forall i, j | 0 <= i < j < |path| ensures path[i] != path[j] {
      PathPart(at, path, i, j);
      assert !CycleAt(at, path[i..j + 1]);
    }
  }

  lemma {:induction false} NoRepeatsFit(path: seq<Id>, ids: set<Id>)
    requires NoRepeats(path) && forall k :: 0 <= k < |path| ==> path[k] in ids
    ensures |path| <= |ids|
  {
    if path != [] {
      var last := path[|path| - 1];
      var before := path[..|path| - 1];
      forall k | 0 <= k < |before| ensures before[k] in ids - {last} { assert path[k] != last; }
      NoRepeatsFit(before, ids - {last});
    }
  }

  // --------------------------------------------------------------------- validation

  predicate Owned(white: char -> bool, e: Expansion) { !BlankName(white, e.component) && !BlankName(white, e.hook) }

  predicate KnownSite(known: set<Id>, site: Site) { site.expansion.Some? ==> site.expansion.value in known }

  predicate KnownSites(known: set<Id>, e: Expansion) {
    && (forall s :: 0 <= s < |e.callSites| ==> KnownSite(known, e.callSites[s]))
    && (e.definitionSite.Some? ==> KnownSite(known, e.definitionSite.value))
  }

  /** The map that a list of expansions describes. */
  ghost predicate Describes(expansions: seq<Expansion>, at: map<Id, Expansion>) {
    && (forall k :: 0 <= k < |expansions| ==> expansions[k].id in at && at[expansions[k].id] == expansions[k])
    && (forall id :: id in at ==> exists k :: 0 <= k < |expansions| && expansions[k].id == id)
  }

  ghost predicate UniqueIds(expansions: seq<Expansion>) {
    forall i, j :: 0 <= i < j < |expansions| ==> expansions[i].id != expansions[j].id
  }

  /** What makes a list of expansions a graph. */
  ghost predicate Sound(white: char -> bool, expansions: seq<Expansion>) {
    && UniqueIds(expansions)
    && (forall k :: 0 <= k < |expansions| ==> Owned(white, expansions[k]))
    && forall at :: Describes(expansions, at) ==> Referring(at) && Acyclic(at)
  }

  predicate ReferringAt(at: map<Id, Expansion>, id: Id)
    requires id in at
  {
    at[id].callSites != [] && KnownSites(at.Keys, at[id])
  }

  predicate Referring(at: map<Id, Expansion>) { forall id :: id in at ==> ReferringAt(at, id) }

  predicate Ascending(ids: seq<Id>) { forall i, j :: 0 <= i < j < |ids| ==> ids[i] < ids[j] }

  predicate Indexed(g: Graph) {
    && Ascending(g.ids) && (forall id :: id in g.at <==> id in g.ids)
    && forall id :: id in g.at ==> g.at[id].id == id
  }

  ghost predicate Valid(white: char -> bool, g: Graph) {
    && Indexed(g) && Referring(g.at) && Acyclic(g.at)
    && forall id :: id in g.at ==> Owned(white, g.at[id])
  }

  function InsertId(ids: seq<Id>, id: Id): (r: seq<Id>)
    requires Ascending(ids) && id !in ids
    ensures Ascending(r) && forall x :: x in r <==> x == id || x in ids
  {
    if ids == [] then [id]
    else if id < ids[0] then
      assert forall k :: 0 <= k < |ids| ==> ids[0] <= ids[k];
      [id] + ids
    else
      var rest := InsertId(ids[1..], id);
      assert forall x :: x in ids <==> x == ids[0] || x in ids[1..];
      assert forall x :: x in ids[1..] ==> ids[0] < x;
      assert ids[0] in ids && ids[0] < id;
      assert forall k :: 0 <= k < |rest| ==> rest[k] in rest;
      [ids[0]] + rest
  }

  /** Nothing but one map is described. */
  lemma DescribesOne(expansions: seq<Expansion>, a: map<Id, Expansion>, b: map<Id, Expansion>)
    requires Describes(expansions, a) && Describes(expansions, b)
    ensures a == b
  {
    forall id | id in a ensures id in b && b[id] == a[id] {
      var k :| 0 <= k < |expansions| && expansions[k].id == id;
    }
    forall id | id in b ensures id in a {
      var k :| 0 <= k < |expansions| && expansions[k].id == id;
    }
  }

  /** Collects the expansions by id. */
  method IndexExpansions(white: char -> bool, expansions: seq<Expansion>) returns (r: Result<Graph>)
    ensures r.Ok? <==> UniqueIds(expansions) && forall k :: 0 <= k < |expansions| ==> Owned(white, expansions[k])
    ensures r.Ok? ==> Indexed(r.value) && Describes(expansions, r.value.at)
    ensures r.Err? ==> RejectedOwner(white, expansions, r.error)
  {
    var g := Graph([], map[]);
    var k := 0;
    while k < |expansions|
      invariant 0 <= k <= |expansions| && Indexed(g) && Describes(expansions[..k], g.at) && UniqueIds(expansions[..k])
      invariant forall i :: 0 <= i < k ==> Owned(white, expansions[i])
    {
      var next := IndexNext(white, expansions, k, g);
      if next.Err? { return next; }
      g := next.value;
      k := k + 1;
    }
    assert expansions[..k] == expansions;
    r := Ok(g);
  }

  method IndexNext(white: char -> bool, expansions: seq<Expansion>, k: nat, g: Graph) returns (r: Result<Graph>)
    requires k < |expansions| && Indexed(g) && Describes(expansions[..k], g.at) && UniqueIds(expansions[..k])
    ensures r.Ok? ==> Indexed(r.value) && Describes(expansions[..k + 1], r.value.at) && UniqueIds(expansions[..k + 1]) && Owned(white, expansions[k])
    ensures r.Err? ==> RejectedOwner(white, expansions, r.error) && (Owned(white, expansions[k]) ==> !UniqueIds(expansions))
  {
    var e := expansions[k];
    if BlankName(white, e.component) { return Err(BlankComponent(e.id)); }
    if BlankName(white, e.hook) { return Err(BlankHook(e.id)); }
    if e.id in g.at {
      TakenId(expansions, k, g.at);
      return Err(DuplicateId(e.id));
    }
    DescribesNext(expansions, k, g.at);
    r := Ok(AddExpansion(g, e));
  }

  function AddExpansion(g: Graph, e: Expansion): (r: Graph)
    requires Indexed(g) && e.id !in g.at
    ensures Indexed(r) && r.at == g.at[e.id := e]
  {
    Graph(InsertId(g.ids, e.id), g.at[e.id := e])
  }

  lemma TakenId(expansions: seq<Expansion>, k: nat, at: map<Id, Expansion>)
    requires k < |expansions| && Describes(expansions[..k], at) && expansions[k].id in at
    ensures !UniqueIds(expansions)
    ensures exists i, j :: 0 <= i < j < |expansions| && expansions[i].id == expansions[k].id && expansions[j].id == expansions[k].id
  {
    var i :| 0 <= i < k && expansions[..k][i].id == expansions[k].id;
    assert expansions[i].id == expansions[k].id;
  }

  lemma DescribesNext(expansions: seq<Expansion>, k: nat, at: map<Id, Expansion>)
    requires k < |expansions| && Describes(expansions[..k], at) && UniqueIds(expansions[..k]) && expansions[k].id !in at
    ensures Describes(expansions[..k + 1], at[expansions[k].id := expansions[k]]) && UniqueIds(expansions[..k + 1])
  {
    var next := expansions[..k + 1];
    assert forall i :: 0 <= i < k ==> next[i] == expansions[..k][i];
    forall id | id in at ensures exists i :: 0 <= i < |next| && next[i].id == id {
      var i :| 0 <= i < k && expansions[..k][i].id == id;
      assert next[i].id == id;
    }
    assert next[k].id == expansions[k].id;
  }

  /** An error of the first pass names an expansion that is at fault. */
  ghost predicate RejectedOwner(white: char -> bool, expansions: seq<Expansion>, error: Error) {
    match error
    case BlankComponent(id) => exists k :: 0 <= k < |expansions| && expansions[k].id == id && BlankName(white, expansions[k].component)
    case BlankHook(id) => exists k :: 0 <= k < |expansions| && expansions[k].id == id && BlankName(white, expansions[k].hook)
    case DuplicateId(id) => exists i, j :: 0 <= i < j < |expansions| && expansions[i].id == id && expansions[j].id == id
    case _ => false
  }

  /** An error of the second pass names a site that is missing or leads nowhere. */
  predicate RejectedReference(at: map<Id, Expansion>, error: Error) {
    match error
    case MissingCallSite(id) => id in at && at[id].callSites == []
    case UnknownReference(id, referenced) => id in at && referenced !in at && Mentions(at[id], referenced)
    case _ => false
  }

  predicate Mentions(e: Expansion, id: Id) {
    || (exists s :: 0 <= s < |e.callSites| && e.callSites[s].expansion == Some(id))
    || (e.definitionSite.Some? && e.definitionSite.value.expansion == Some(id))
  }

  method ValidateReferences(g: Graph) returns (error: Option<Error>)
    requires Indexed(g)
    ensures error.None? <==> Referring(g.at)
    ensures error.Some? ==> RejectedReference(g.at, error.value)
  {
    var k := 0;
    while k < |g.ids|
      invariant 0 <= k <= |g.ids|
      invariant forall i :: 0 <= i < k ==> g.ids[i] in g.at && ReferringAt(g.at, g.ids[i])
    {
      var id := g.ids[k];
      assert id in g.at;
      if g.at[id].callSites == [] { return Some(MissingCallSite(id)); }
      error := ValidateSites(g.at, id);
      if error.Some? { return; }
      k := k + 1;
    }
    error := None;
  }

  method ValidateSites(at: map<Id, Expansion>, id: Id) returns (error: Option<Error>)
    requires id in at && at[id].id == id
    ensures error.None? <==> KnownSites(at.Keys, at[id])
    ensures error.Some? ==> RejectedReference(at, error.value)
  {
    var e := at[id];
    var s := 0;
    while s < |e.callSites|
      invariant 0 <= s <= |e.callSites|
      invariant forall i :: 0 <= i < s ==> KnownSite(at.Keys, e.callSites[i])
    {
      var site := e.callSites[s];
      if site.expansion.Some? && site.expansion.value !in at { return Some(UnknownReference(id, site.expansion.value)); }
      s := s + 1;
    }
    if e.definitionSite.Some? {
      var site := e.definitionSite.value;
      if site.expansion.Some? && site.expansion.value !in at { return Some(UnknownReference(id, site.expansion.value)); }
    }
    error := None;
  }

  // ------------------------------------------------------------------- depth first

  /** Visited ids in an order where everything an id came from stands before it. */
  ghost predicate Settled(at: map<Id, Expansion>, order: seq<Id>) {
    && NoRepeats(order)
    && forall i, b :: 0 <= i < |order| && Edge(at, order[i], b) ==> exists j :: 0 <= j < i && order[j] == b
  }

  ghost predicate Lists(order: seq<Id>, ids: set<Id>) { forall id :: id in ids <==> id in order }

  /** The ids being visited are a path that leads to the present one. */
  ghost predicate Stacked(at: map<Id, Expansion>, stack: seq<Id>, visiting: set<Id>, id: Id) {
    && Lists(stack, visiting) && (forall x :: x in visiting ==> x in at)
    && (stack != [] ==> Path(at, stack) && Edge(at, stack[|stack| - 1], id))
  }

  /** `validate_acyclic`. */
  method ValidateAcyclic(at: map<Id, Expansion>, id: Id, visiting0: set<Id>, visited0: set<Id>, ghost stack: seq<Id>, ghost order0: seq<Id>)
    returns (error: Option<Error>, visiting: set<Id>, visited: set<Id>, ghost order: seq<Id>)
    requires Referring(at) && id in at && Stacked(at, stack, visiting0, id)
    requires Settled(at, order0) && Lists(order0, visited0) && visiting0 !! visited0
    ensures error.None? ==> visiting == visiting0 && Settled(at, order) && Lists(order, visited) && visited0 + {id} <= visited && visiting !! visited
    ensures error.Some? ==> ReportsCycle(at, error.value)
    decreases |at.Keys - visiting0|, 1
  {
    visiting, visited, order := visiting0, visited0, order0;
    if id in visited { return None, visiting, visited, order; }
    if id in visiting {
      FoundCycle(at, stack, id);
      return Some(Cycle(id)), visiting, visited, order;
    }
    Deeper(at, stack, visiting0, id);
    Smaller(at, visiting0, id);
    error, visiting, visited, order := ValidateParents(at, id, visiting0 + {id}, visited, stack + [id], order);
    if error.Some? { return; }
    SettledNext(at, order, id, visited);
    visiting, visited, order := visiting - {id}, visited + {id}, order + [id];
  }

  method ValidateParents(at: map<Id, Expansion>, id: Id, visiting0: set<Id>, visited0: set<Id>, ghost stack: seq<Id>, ghost order0: seq<Id>)
    returns (error: Option<Error>, visiting: set<Id>, visited: set<Id>, ghost order: seq<Id>)
    requires Referring(at) && id in visiting0 && id in at && forall b :: Edge(at, id, b) ==> Stacked(at, stack, visiting0, b)
    requires Settled(at, order0) && Lists(order0, visited0) && visiting0 !! visited0
    ensures error.None? ==> visiting == visiting0 && Settled(at, order) && Lists(order, visited) && visited0 <= visited && visiting !! visited
    ensures error.None? ==> ParentsBefore(at[id].callSites, |at[id].callSites|, visited)
    ensures error.Some? ==> ReportsCycle(at, error.value)
    decreases |at.Keys - visiting0|, 2
  {
    error, visiting, visited, order := None, visiting0, visited0, order0;
    var s := 0;
    while s < |at[id].callSites|
      invariant 0 <= s <= |at[id].callSites| && error.None?
      invariant visiting == visiting0 && visiting !! visited && visited0 <= visited
      invariant Settled(at, order) && Lists(order, visited)
      invariant ParentsBefore(at[id].callSites, s, visited)
    {
      var parent := at[id].callSites[s].expansion;
      if parent.Some? {
        KnownParent(at, id, s);
        error, visiting, visited, order := ValidateAcyclic(at, parent.value, visiting, visited, stack, order);
        if error.Some? { return; }
      }
      s := s + 1;
    }
  }

  lemma KnownParent(at: map<Id, Expansion>, id: Id, s: nat)
    requires Referring(at) && id in at && s < |at[id].callSites| && at[id].callSites[s].expansion.Some?
    ensures at[id].callSites[s].expansion.value in at && Edge(at, id, at[id].callSites[s].expansion.value)
  {
    assert ReferringAt(at, id) && KnownSite(at.Keys, at[id].callSites[s]);
  }

  /** A reported cycle exists, at the id that is named. */
  ghost predicate ReportsCycle(at: map<Id, Expansion>, error: Error) {
    error.Cycle? && exists path :: CycleAt(at, path) && path[0] == error.id
  }

  ghost predicate ParentsBefore(sites: seq<Site>, n: nat, visited: set<Id>)
    requires n <= |sites|
  {
    forall i :: 0 <= i < n && sites[i].expansion.Some? ==> sites[i].expansion.value in visited
  }

  lemma Smaller(at: map<Id, Expansion>, visiting: set<Id>, id: Id)
    requires id in at && id !in visiting
    ensures |at.Keys - (visiting + {id})| < |at.Keys - visiting|
  {
    assert at.Keys - visiting == (at.Keys - (visiting + {id})) + {id};
  }

  lemma FoundCycle(at: map<Id, Expansion>, stack: seq<Id>, id: Id)
    requires stack != [] && Path(at, stack) && Edge(at, stack[|stack| - 1], id) && id in stack
    ensures exists path :: CycleAt(at, path) && path[0] == id
  {
    var i :| 0 <= i < |stack| && stack[i] == id;
    PathPart(at, stack, i, |stack| - 1);
    var part := stack[i..|stack|];
    PathMore(at, part, id);
    assert CycleAt(at, part + [id]) && (part + [id])[0] == id;
  }

  lemma Deeper(at: map<Id, Expansion>, stack: seq<Id>, visiting: set<Id>, id: Id)
    requires id in at && Stacked(at, stack, visiting, id)
    ensures forall b :: Edge(at, id, b) ==> Stacked(at, stack + [id], visiting + {id}, b)
  {
    if stack != [] { PathMore(at, stack, id); }
  }

  lemma SettledNext(at: map<Id, Expansion>, order: seq<Id>, id: Id, visited: set<Id>)
    requires id in at && Settled(at, order) && Lists(order, visited) && id !in visited
    requires ParentsBefore(at[id].callSites, |at[id].callSites|, visited)
    ensures Settled(at, order + [id]) && Lists(order + [id], visited + {id})
  {
    var more := order + [id];
    forall i, b | 0 <= i < |more| && Edge(at, more[i], b) ensures exists j :: 0 <= j < i && more[j] == b {
      if i < |order| {
        var j :| 0 <= j < i && order[j] == b;
        assert more[j] == b;
      } else {
        var s :| 0 <= s < |at[id].callSites| && at[id].callSites[s].expansion == Some(b);
        assert b in order;
        var j :| 0 <= j < |order| && order[j] == b;
        assert more[j] == b;
      }
    }
  }

  /** A settled order of everything leaves no room for a cycle. */
  lemma SettledIsAcyclic(at: map<Id, Expansion>, order: seq<Id>)
    requires Settled(at, order) && forall id :: id in at ==> id in order
    ensures Acyclic(at)
  {
    forall path ensures !CycleAt(at, path) { SettledCannotCycle(at, order, path); }
  }

  lemma SettledCannotCycle(at: map<Id, Expansion>, order: seq<Id>, path: seq<Id>)
    requires Settled(at, order) && forall id :: id in at ==> id in order
    ensures !CycleAt(at, path)
  {
    if CycleAt(at, path) {
      assert Edge(at, path[0], path[1]);
      var i :| 0 <= i < |order| && order[i] == path[0];
      var j := SettledDescends(at, order, path, i);
      assert false;
    }
  }

  lemma {:induction false} SettledDescends(at: map<Id, Expansion>, order: seq<Id>, path: seq<Id>, i: nat) returns (j: nat)
    requires Settled(at, order) && Path(at, path) && |path| > 1 && i < |order| && order[i] == path[0]
    ensures j < i && order[j] == path[|path| - 1]
    decreases |path|
  {
    assert Edge(at, path[0], path[1]);
    j :| 0 <= j < i && order[j] == path[1];
    if |path| > 2 {
      PathPart(at, path, 1, |path| - 1);
      assert path[1..|path|] == path[1..];
      j := SettledDescends(at, order, path[1..], j);
    }
  }

  /** `validate_acyclic` from every id. */
  method ValidateGraph(g: Graph) returns (error: Option<Error>)
    requires Indexed(g) && Referring(g.at)
    ensures error.None? <==> Acyclic(g.at)
    ensures error.Some? ==> ReportsCycle(g.at, error.value)
  {
    var visiting: set<Id>, visited: set<Id> := {}, {};
    ghost var order: seq<Id> := [];
    var k := 0;
    while k < |g.ids|
      invariant 0 <= k <= |g.ids| && visiting == {}
      invariant Settled(g.at, order) && Lists(order, visited)
      invariant forall i :: 0 <= i < k ==> g.ids[i] in visited
    {
      assert g.ids[k] in g.at;
      error, visiting, visited, order := ValidateAcyclic(g.at, g.ids[k], visiting, visited, [], order);
      if error.Some? { return; }
      k := k + 1;
    }
    SettledIsAcyclic(g.at, order);
    error := None;
  }

  /** `ExpansionGraph::new`: exactly the sound lists make a graph, and a cycle that is
      reported exists. */
  method New(white: char -> bool, expansions: seq<Expansion>) returns (r: Result<Graph>)
    ensures r.Ok? <==> Sound(white, expansions)
    ensures r.Ok? ==> Valid(white, r.value) && Describes(expansions, r.value.at)
    ensures r.Err? ==> RejectedOwner(white, expansions, r.error) || RejectedGraph(expansions, r.error)
  {
    var indexed := IndexExpansions(white, expansions);
    if indexed.Err? { return indexed; }
    var g := indexed.value;
    DescribedAlone(expansions, g.at);
    var error := ValidateReferences(g);
    if error.Some? { return Err(error.value); }
    error := ValidateGraph(g);
    if error.Some? { return Err(error.value); }
    DescribedOwned(white, expansions, g.at);
    r := Ok(g);
  }

  /** An error about the graph that the list describes. */
  ghost predicate RejectedGraph(expansions: seq<Expansion>, error: Error) {
    exists at :: Describes(expansions, at)
      && (RejectedReference(at, error) || ReportsCycle(at, error))
  }

  lemma DescribedAlone(expansions: seq<Expansion>, at: map<Id, Expansion>)
    requires Describes(expansions, at)
    ensures (forall other :: Describes(expansions, other) ==> Referring(other) && Acyclic(other)) <==> Referring(at) && Acyclic(at)
  {
    forall other | Describes(expansions, other) ensures other == at { DescribesOne(expansions, at, other); }
  }

  lemma DescribedOwned(white: char -> bool, expansions: seq<Expansion>, at: map<Id, Expansion>)
    requires Describes(expansions, at) && forall k :: 0 <= k < |expansions| ==> Owned(white, expansions[k])
    ensures forall id :: id in at ==> Owned(white, at[id])
  {}

  // --------------------------------------------------------------------- backtraces

  /** A path to the root: its last expansion has a call site in original text. */
  ghost predicate RootPath(at: map<Id, Expansion>, path: seq<Id>) {
    Path(at, path) && path[|path| - 1] in at && Original(at[path[|path| - 1]])
  }

  predicate Original(e: Expansion) { exists s :: 0 <= s < |e.callSites| && e.callSites[s].expansion == None }

  /** The path along first call sites. */
  ghost predicate Primary(at: map<Id, Expansion>, path: seq<Id>) {
    && path != [] && (forall k :: 0 <= k < |path| ==> path[k] in at && at[path[k]].callSites != [])
    && (forall k :: 0 <= k < |path| - 1 ==> at[path[k]].callSites[0].expansion == Some(path[k + 1]))
    && at[path[|path| - 1]].callSites[0].expansion == None
  }

  ghost predicate PrimarySoFar(at: map<Id, Expansion>, path: seq<Id>, next: Option<Id>) {
    && (forall k :: 0 <= k < |path| ==> path[k] in at && at[path[k]].callSites != [])
    && (forall k :: 0 <= k < |path| - 1 ==> at[path[k]].callSites[0].expansion == Some(path[k + 1]))
    && (path != [] ==> at[path[|path| - 1]].callSites[0].expansion == next)
    && (next.Some? ==> next.value in at)
  }

  lemma PrimaryIsPath(at: map<Id, Expansion>, path: seq<Id>, next: Option<Id>)
    requires PrimarySoFar(at, path, next) && path != []
    ensures Path(at, path)
  {
    forall k | 0 <= k < |path| - 1 ensures Edge(at, path[k], path[k + 1]) {
      assert at[path[k]].callSites[0].expansion == Some(path[k + 1]);
    }
  }

  lemma PrimaryNext(at: map<Id, Expansion>, path: seq<Id>, id: Id)
    requires Referring(at) && Acyclic(at) && PrimarySoFar(at, path, Some(id))
    ensures PrimarySoFar(at, path + [id], at[id].callSites[0].expansion)
    ensures |path + [id]| <= |at| && NoRepeats(path + [id])
  {
    var more := path + [id];
    assert ReferringAt(at, id);
    assert KnownSite(at.Keys, at[id].callSites[0]);
    PrimaryIsPath(at, more, at[id].callSites[0].expansion);
    PathsNeverRepeat(at, more);
    NoRepeatsFit(more, at.Keys);
    assert |at.Keys| == |at|;
  }

  /** `backtrace`, by ids; nothing exactly for an unknown id. */
  method Backtrace(white: char -> bool, g: Graph, id: Id) returns (r: Option<seq<Id>>)
    requires Valid(white, g)
    ensures r.None? <==> id !in g.at
    ensures r.Some? ==> r.value != [] && r.value[0] == id && Primary(g.at, r.value) && NoRepeats(r.value) && |r.value| <= |g.at|
  {
    var path: seq<Id> := [];
    var current := Some(id);
    if id !in g.at { return None; }
    while current.Some?
      invariant PrimarySoFar(g.at, path, current) && NoRepeats(path) && |path| <= |g.at|
      invariant if path == [] then current == Some(id) else path[0] == id
      decreases |g.at| - |path|, if current.Some? then 1 else 0
    {
      PrimaryNext(g.at, path, current.value);
      path := path + [current.value];
      current := if g.at[current.value].callSites == [] then None else g.at[current.value].callSites[0].expansion;
    }
    r := Some(path);
  }

  /** All distinct parents of an expansion, in the order of their first call site. */
  function Parents(sites: seq<Site>): (r: seq<Option<Id>>)
    ensures forall p :: p in r <==> exists s :: 0 <= s < |sites| && sites[s].expansion == p
    ensures forall i, j :: 0 <= i < j < |r| ==> r[i] != r[j]
    ensures sites != [] ==> r != [] && r[0] == sites[0].expansion
  {
    if sites == [] then []
    else
      var last := sites[|sites| - 1].expansion;
      var before := Parents(sites[..|sites| - 1]);
      assert forall s :: 0 <= s < |sites| - 1 ==> sites[..|sites| - 1][s] == sites[s];
      if last in before then before else before + [last]
  }

  ghost predicate RootPathFrom(at: map<Id, Expansion>, id: Id, path: seq<Id>) { RootPath(at, path) && path[0] == id }

  /** Exactly the paths to the root, each once, the primary one in front. */
  ghost predicate AllBacktraces(at: map<Id, Expansion>, id: Id, paths: seq<seq<Id>>) {
    && (forall path :: path in paths <==> RootPathFrom(at, id, path))
    && (forall i, j :: 0 <= i < j < |paths| ==> paths[i] != paths[j])
    && paths != [] && Primary(at, paths[0])
  }

  /** The paths that continue with one parent. */
  ghost predicate FromParent(at: map<Id, Expansion>, id: Id, parent: Option<Id>, path: seq<Id>) {
    path != [] && path[0] == id && if parent.None? then path == [id] else |path| > 1 && RootPathFrom(at, parent.value, path[1..])
  }

  lemma RootPathParent(at: map<Id, Expansion>, id: Id, path: seq<Id>, parents: seq<Option<Id>>)
    requires id in at && parents == Parents(at[id].callSites)
    ensures RootPathFrom(at, id, path) <==> exists j :: 0 <= j < |parents| && FromParent(at, id, parents[j], path)
  {
    if RootPathFrom(at, id, path) { ParentOf(at, id, path, parents); }
    forall j | 0 <= j < |parents| && FromParent(at, id, parents[j], path) ensures RootPathFrom(at, id, path) {
      assert parents[j] in parents;
      if parents[j].Some? { PathBehind(at, id, path); }
    }
  }

  lemma ParentOf(at: map<Id, Expansion>, id: Id, path: seq<Id>, parents: seq<Option<Id>>)
    requires id in at && parents == Parents(at[id].callSites) && RootPathFrom(at, id, path)
    ensures exists j :: 0 <= j < |parents| && FromParent(at, id, parents[j], path)
  {
    var parent := if |path| == 1 then None else Some(path[1]);
    if |path| > 1 {
      assert Edge(at, path[0], path[1]);
      PathPart(at, path, 1, |path| - 1);
      assert path[1..|path|] == path[1..];
    } else {
      assert path == [id];
    }
    assert parent in parents;
    var j :| 0 <= j < |parents| && parents[j] == parent;
    assert FromParent(at, id, parents[j], path);
  }

  lemma PathBehind(at: map<Id, Expansion>, id: Id, path: seq<Id>)
    requires |path| > 1 && path[0] == id && RootPath(at, path[1..]) && Edge(at, id, path[1..][0])
    ensures RootPathFrom(at, id, path)
  {
    var rest := path[1..];
    forall k | 0 <= k < |path| - 1 ensures Edge(at, path[k], path[k + 1]) {
      if k > 0 { assert rest[k - 1] == path[k] && rest[k] == path[k + 1] && Edge(at, rest[k - 1], rest[k]); }
    }
  }

  /** The paths through the first `k` parents, each once. */
  ghost predicate Gathered(at: map<Id, Expansion>, id: Id, parents: seq<Option<Id>>, k: nat, paths: seq<seq<Id>>)
    requires id in at && at[id].callSites != [] && parents == Parents(at[id].callSites) && k <= |parents|
  {
    && (forall path :: path in paths <==> exists j :: 0 <= j < k && FromParent(at, id, parents[j], path))
    && (forall i, j :: 0 <= i < j < |paths| ==> paths[i] != paths[j])
    && (k > 0 ==> paths != [] && Primary(at, paths[0]))
  }

  function Prefixed(id: Id, tails: seq<seq<Id>>): (r: seq<seq<Id>>)
    ensures |r| == |tails| && forall k :: 0 <= k < |r| ==> r[k] == [id] + tails[k]
  {
    seq(|tails|, k requires 0 <= k < |tails| => [id] + tails[k])
  }

  /** What one parent adds: its own paths, each once, the primary one first. */
  ghost predicate Branch(at: map<Id, Expansion>, id: Id, parent: Option<Id>, more: seq<seq<Id>>)
    requires id in at && at[id].callSites != []
  {
    && (forall path :: path in more <==> FromParent(at, id, parent, path))
    && (forall i, j :: 0 <= i < j < |more| ==> more[i] != more[j])
    && more != [] && (parent == at[id].callSites[0].expansion ==> Primary(at, more[0]))
  }

  lemma OriginalBranch(at: map<Id, Expansion>, id: Id)
    requires id in at && at[id].callSites != []
    ensures Branch(at, id, None, [[id]])
  {}

  lemma ParentBranch(at: map<Id, Expansion>, id: Id, parent: Id, tails: seq<seq<Id>>)
    requires id in at && at[id].callSites != [] && AllBacktraces(at, parent, tails)
    ensures Branch(at, id, Some(parent), Prefixed(id, tails))
  {
    var more := Prefixed(id, tails);
    forall path ensures path in more <==> FromParent(at, id, Some(parent), path) {
      if path in more {
        var k :| 0 <= k < |more| && more[k] == path;
        assert tails[k] in tails && path[1..] == tails[k];
      }
      if FromParent(at, id, Some(parent), path) {
        assert path[1..] in tails;
        var k :| 0 <= k < |tails| && tails[k] == path[1..];
        assert path == [id] + path[1..];
        assert more[k] == path;
      }
    }
    forall i, j | 0 <= i < j < |more| ensures more[i] != more[j] {
      assert more[i][1..] == tails[i] && more[j][1..] == tails[j];
    }
    assert tails[0] in tails;
    if Some(parent) == at[id].callSites[0].expansion { PrimaryPrefixed(at, id, tails[0]); }
  }

  lemma PrimaryPrefixed(at: map<Id, Expansion>, id: Id, tail: seq<Id>)
    requires id in at && at[id].callSites != [] && Primary(at, tail) && at[id].callSites[0].expansion == Some(tail[0])
    ensures Primary(at, [id] + tail)
  {
    var path := [id] + tail;
    forall k | 0 <= k < |path| - 1 ensures at[path[k]].callSites[0].expansion == Some(path[k + 1]) {
      if k > 0 { assert path[k] == tail[k - 1] && path[k + 1] == tail[k]; }
    }
  }

  lemma GatherBranch(at: map<Id, Expansion>, id: Id, parents: seq<Option<Id>>, k: nat, paths: seq<seq<Id>>, more: seq<seq<Id>>)
    requires id in at && at[id].callSites != [] && parents == Parents(at[id].callSites) && k < |parents|
    requires Gathered(at, id, parents, k, paths) && Branch(at, id, parents[k], more)
    ensures Gathered(at, id, parents, k + 1, paths + more)
  {
    var all := paths + more;
    forall path ensures path in all <==> exists j :: 0 <= j < k + 1 && FromParent(at, id, parents[j], path) {
      if path in all && path !in paths { assert FromParent(at, id, parents[k], path); }
    }
    assert paths != [] ==> paths[0] in paths;
    assert k == 0 ==> paths == [];
    forall i, j | 0 <= i < |paths| && 0 <= j < |more| ensures paths[i] != more[j] {
      assert paths[i] in paths && more[j] in more;
      var h :| 0 <= h < k && FromParent(at, id, parents[h], paths[i]);
      assert parents[h] != parents[k];
    }
  }

  /** `collect_backtraces`: all paths from an expansion to original text. */
  method CollectBacktraces(white: char -> bool, g: Graph, id: Id, ghost above: seq<Id>) returns (paths: seq<seq<Id>>)
    requires Valid(white, g) && id in g.at && (above != [] ==> Path(g.at, above) && Edge(g.at, above[|above| - 1], id))
    requires forall k :: 0 <= k < |above| ==> above[k] in g.at
    ensures AllBacktraces(g.at, id, paths)
    decreases |g.at| - |above|, 1
  {
    assert ReferringAt(g.at, id);
    var parents := Parents(g.at[id].callSites);
    paths := [];
    var k := 0;
    while k < |parents|
      invariant 0 <= k <= |parents| && Gathered(g.at, id, parents, k, paths)
    {
      var more := CollectBranch(white, g, id, above, parents, k);
      GatherBranch(g.at, id, parents, k, paths, more);
      paths := paths + more;
      k := k + 1;
    }
    forall path ensures path in paths <==> RootPathFrom(g.at, id, path) { RootPathParent(g.at, id, path, parents); }
  }

  /** The paths by way of one parent, or the one that starts in original text. */
  method CollectBranch(white: char -> bool, g: Graph, id: Id, ghost above: seq<Id>, parents: seq<Option<Id>>, k: nat) returns (more: seq<seq<Id>>)
    requires Valid(white, g) && id in g.at && (above != [] ==> Path(g.at, above) && Edge(g.at, above[|above| - 1], id))
    requires forall k :: 0 <= k < |above| ==> above[k] in g.at
    requires g.at[id].callSites != [] && parents == Parents(g.at[id].callSites) && k < |parents|
    ensures Branch(g.at, id, parents[k], more)
    decreases |g.at| - |above|, 0
  {
    if parents[k].Some? {
      ParentKnown(g.at, id, parents, k);
      DeeperPath(g.at, above, id);
      var tails := CollectBacktraces(white, g, parents[k].value, above + [id]);
      ParentBranch(g.at, id, parents[k].value, tails);
      more := Prefixed(id, tails);
    } else {
      OriginalBranch(g.at, id);
      more := [[id]];
    }
  }

  lemma ParentKnown(at: map<Id, Expansion>, id: Id, parents: seq<Option<Id>>, k: nat)
    requires Referring(at) && id in at && parents == Parents(at[id].callSites) && k < |parents| && parents[k].Some?
    ensures parents[k].value in at && Edge(at, id, parents[k].value)
  {
    assert parents[k] in parents;
    var s :| 0 <= s < |at[id].callSites| && at[id].callSites[s].expansion == parents[k];
    KnownParent(at, id, s);
  }

  lemma DeeperPath(at: map<Id, Expansion>, above: seq<Id>, id: Id)
    requires Acyclic(at) && id in at && (above != [] ==> Path(at, above) && Edge(at, above[|above| - 1], id))
    requires forall k :: 0 <= k < |above| ==> above[k] in at
    ensures Path(at, above + [id]) && |above| < |at|
  {
    if above != [] { PathMore(at, above, id); }
    PathsNeverRepeat(at, above + [id]);
    NoRepeatsFit(above + [id], at.Keys);
    assert |at.Keys| == |at|;
  }

  /** `backtraces`: nothing exactly for an unknown id, like `backtrace`; the first path is
      the one that `backtrace` gives. */
  method Backtraces(white: char -> bool, g: Graph, id: Id) returns (r: Option<seq<seq<Id>>>)
    requires Valid(white, g)
    ensures r.None? <==> id !in g.at
    ensures r.Some? ==> AllBacktraces(g.at, id, r.value)
    ensures r.Some? ==> forall path :: Primary(g.at, path) && path[0] == id ==> r.value[0] == path
  {
    if id !in g.at { return None; }
    var paths := CollectBacktraces(white, g, id, []);
    forall path | Primary(g.at, path) && path[0] == id ensures paths[0] == path {
      assert paths[0] in paths;
      PrimaryIsUnique(g.at, paths[0], path);
    }
    r := Some(paths);
  }

  lemma {:induction false} PrimaryIsUnique(at: map<Id, Expansion>, a: seq<Id>, b: seq<Id>)
    requires Primary(at, a) && Primary(at, b) && a[0] == b[0]
    ensures a == b
    decreases |a|
  {
    PrimaryEnds(at, a);
    PrimaryEnds(at, b);
    if |a| > 1 {
      PrimaryTail(at, a);
      PrimaryTail(at, b);
      PrimaryIsUnique(at, a[1..], b[1..]);
    }
  }

  lemma PrimaryEnds(at: map<Id, Expansion>, path: seq<Id>)
    requires Primary(at, path)
    ensures |path| == 1 <==> at[path[0]].callSites[0].expansion == None
    ensures |path| > 1 ==> at[path[0]].callSites[0].expansion == Some(path[1])
  {}

  lemma PrimaryTail(at: map<Id, Expansion>, path: seq<Id>)
    requires Primary(at, path) && |path| > 1
    ensures Primary(at, path[1..])
  {
    var tail := path[1..];
    forall k | 0 <= k < |tail| - 1 ensures at[tail[k]].callSites[0].expansion == Some(tail[k + 1]) {
      assert at[path[k + 1]].callSites[0].expansion == Some(path[k + 2]);
    }
  }

  // ---------------------------------------------------------------------- extension

  /** `next_id`: the id behind the last one. */
  method NextId(g: Graph) returns (r: Result<Id>)
    requires Indexed(g)
    ensures r.Ok? ==> r.value !in g.at && r.value > 0 && forall id :: id in g.at ==> id < r.value
    ensures r.Err? ==> r.error == IdExhausted
    ensures r.Err? <==> 0xFFFF_FFFF in g.at
  {
    if g.ids == [] { return Ok(1); }
    var last := g.ids[|g.ids| - 1];
    assert last in g.at;
    assert forall id :: id in g.at ==> id <= last;
    if last == 0xFFFF_FFFF { return Err(IdExhausted); }
    return Ok(last + 1);
  }

  function Values(g: Graph): (r: seq<Expansion>)
    requires Indexed(g)
    ensures |r| == |g.ids| && forall k :: 0 <= k < |r| ==> g.ids[k] in g.at && r[k] == g.at[g.ids[k]]
  {
    assert forall k :: 0 <= k < |g.ids| ==> g.ids[k] in g.at;
    seq(|g.ids|, k requires 0 <= k < |g.ids| => g.at[g.ids[k]])
  }

  /** `with_expansion`: validates everything again. */
  method WithExpansion(white: char -> bool, g: Graph, e: Expansion) returns (r: Result<Graph>)
    requires Indexed(g)
    ensures r.Ok? <==> Sound(white, Values(g) + [e])
    ensures r.Ok? ==> Valid(white, r.value) && Describes(Values(g) + [e], r.value.at)
    ensures Valid(white, g) && Extends(white, g, e) ==> r.Ok? && r.value.at == g.at[e.id := e]
  {
    r := New(white, Values(g) + [e]);
    if Valid(white, g) && Extends(white, g, e) {
      ExtensionSucceeds(white, g, e);
      DescribesOne(Values(g) + [e], r.value.at, g.at[e.id := e]);
    }
  }

  /** What a caller can check: a new id, owners, and call sites in the graph or in the text. */
  predicate Extends(white: char -> bool, g: Graph, e: Expansion) {
    e.id !in g.at && Owned(white, e) && e.callSites != [] && KnownSites(g.at.Keys, e)
  }

  /** Such an expansion is always accepted, and the graph gains it and nothing else. */
  lemma ExtensionSucceeds(white: char -> bool, g: Graph, e: Expansion)
    requires Valid(white, g) && Extends(white, g, e)
    ensures Sound(white, Values(g) + [e])
    ensures Describes(Values(g) + [e], g.at[e.id := e])
  {
    var all, at := Values(g) + [e], g.at[e.id := e];
    ExtensionDescribed(g, e);
    ExtensionRefers(white, g, e);
    ExtensionAcyclic(white, g, e);
    DescribedAlone(all, at);
    forall k | 0 <= k < |all| ensures Owned(white, all[k]) { if k < |g.ids| { assert all[k] == g.at[g.ids[k]]; } }
  }

  lemma ExtensionDescribed(g: Graph, e: Expansion)
    requires Indexed(g) && e.id !in g.at
    ensures Describes(Values(g) + [e], g.at[e.id := e]) && UniqueIds(Values(g) + [e])
  {
    var all, at := Values(g) + [e], g.at[e.id := e];
    ExtensionIds(g, e);
    forall id | id in at ensures exists k :: 0 <= k < |all| && all[k].id == id {
      if id == e.id {
        assert all[|g.ids|].id == id;
      } else {
        var k :| 0 <= k < |g.ids| && g.ids[k] == id;
        assert all[k].id == id;
      }
    }
  }

  lemma ExtensionIds(g: Graph, e: Expansion)
    requires Indexed(g) && e.id !in g.at
    ensures var all := Values(g) + [e];
            && (forall k :: 0 <= k < |g.ids| ==> g.ids[k] in g.at && all[k] == g.at[g.ids[k]] && all[k].id == g.ids[k])
            && UniqueIds(all)
  {
    var all := Values(g) + [e];
    forall k | 0 <= k < |g.ids| ensures g.ids[k] in g.at && all[k] == g.at[g.ids[k]] && all[k].id == g.ids[k] {
      assert g.ids[k] in g.ids;
    }
  }

  lemma ExtensionRefers(white: char -> bool, g: Graph, e: Expansion)
    requires Valid(white, g) && Extends(white, g, e)
    ensures Referring(g.at[e.id := e])
  {
    var at := g.at[e.id := e];
    forall id | id in at ensures ReferringAt(at, id) {
      if id in g.at { assert ReferringAt(g.at, id); }
      forall s | 0 <= s < |at[id].callSites| ensures KnownSite(at.Keys, at[id].callSites[s]) {
        assert KnownSite(g.at.Keys, at[id].callSites[s]);
      }
    }
  }

  /** Nothing old leads to the new expansion. */
  lemma OldEdges(white: char -> bool, g: Graph, e: Expansion, a: Id, b: Id)
    requires Valid(white, g) && Extends(white, g, e)
    ensures Edge(g.at[e.id := e], a, b) ==> b in g.at
    ensures a in g.at ==> (Edge(g.at[e.id := e], a, b) <==> Edge(g.at, a, b))
  {
    var at := g.at[e.id := e];
    if Edge(at, a, b) {
      var s :| 0 <= s < |at[a].callSites| && at[a].callSites[s].expansion == Some(b);
      if a in g.at { assert ReferringAt(g.at, a) && KnownSite(g.at.Keys, at[a].callSites[s]); }
      else { assert KnownSite(g.at.Keys, e.callSites[s]); }
    }
  }

  /** A path that starts in the old graph stays there. */
  lemma OldPaths(white: char -> bool, g: Graph, e: Expansion, path: seq<Id>)
    requires Valid(white, g) && Extends(white, g, e) && path != [] && path[0] in g.at
    ensures Path(g.at[e.id := e], path) <==> Path(g.at, path)
    ensures Path(g.at, path) ==> forall k :: 0 <= k < |path| ==> path[k] in g.at
  {
    var at := g.at[e.id := e];
    if Path(at, path) {
      StaysOld(white, g, e, at, path);
      forall k | 0 <= k < |path| - 1 ensures Edge(g.at, path[k], path[k + 1]) {
        assert Edge(at, path[k], path[k + 1]);
        OldEdges(white, g, e, path[k], path[k + 1]);
      }
    }
    if Path(g.at, path) {
      forall k | 0 <= k < |path| - 1 ensures Edge(at, path[k], path[k + 1]) {
        assert Edge(g.at, path[k], path[k + 1]);
        OldEdges(white, g, e, path[k], path[k + 1]);
      }
      StaysOld(white, g, e, at, path);
    }
  }

  lemma {:induction false} StaysOld(white: char -> bool, g: Graph, e: Expansion, at: map<Id, Expansion>, path: seq<Id>)
    requires Valid(white, g) && Extends(white, g, e) && at == g.at[e.id := e] && Path(at, path) && path[0] in g.at
    ensures forall k :: 0 <= k < |path| ==> path[k] in g.at
    decreases |path|
  {
    var last := |path| - 1;
    if last > 0 {
      PathPart(at, path, 0, last - 1);
      StaysOld(white, g, e, at, path[0..last]);
      assert Edge(at, path[last - 1], path[last]);
      OldEdges(white, g, e, path[last - 1], path[last]);
      forall k | 0 <= k < |path| ensures path[k] in g.at { if k < last { assert path[0..last][k] == path[k]; } }
    }
  }

  lemma ExtensionAcyclic(white: char -> bool, g: Graph, e: Expansion)
    requires Valid(white, g) && Extends(white, g, e)
    ensures Acyclic(g.at[e.id := e])
  {
    var at := g.at[e.id := e];
    forall path ensures !CycleAt(at, path) {
      if CycleAt(at, path) {
        var n := |path| - 1;
        assert Edge(at, path[n - 1], path[n]);
        OldEdges(white, g, e, path[n - 1], path[n]);
        OldPaths(white, g, e, path);
        assert CycleAt(g.at, path);
        assert false;
      }
    }
  }

  /** No existing backtrace changes, primary or not. */
  lemma ExtensionKeepsBacktraces(white: char -> bool, g: Graph, e: Expansion, path: seq<Id>)
    requires Valid(white, g) && Extends(white, g, e) && path != [] && path[0] in g.at
    ensures RootPath(g.at[e.id := e], path) <==> RootPath(g.at, path)
    ensures Primary(g.at[e.id := e], path) <==> Primary(g.at, path)
  {
    var at := g.at[e.id := e];
    OldPaths(white, g, e, path);
    if Primary(at, path) {
      PrimaryIsPath(at, path, None);
    }
    if Primary(g.at, path) { PrimaryIsPath(g.at, path, None); }
  }
}
