/** The router (router.go): groups form a tree, middlewares are inherited, and compiling the tree
    builds one handler per route. Sibling groups append their middlewares to one shared backing
    array; the proof shows that none of them ever sees another's. */
module Router {
  import opened Base
  import opened Patterns

  /** Application functions are known by a number; a middleware applied to a handler is a term. */
  datatype Handler = Endpoint(fn: nat) | Wrapped(outer: nat, inner: Handler)

  datatype Middleware = Middleware(pattern: string, fn: nat)

  datatype Route = Route(pattern: string, fn: nat)

  /** A group. The root is node 0; a group comes after its parent. */
  datatype Node = Node(
    prefix: string, parent: Option<nat>, middlewares: seq<Middleware>, endpoints: seq<Route>, groups: seq<nat>)

  // ---------------------------------------------------------------- what compiling should produce

  /** The middlewares a handler runs through, outermost first, and the function they lead to. */
  function Layers(h: Handler): seq<nat> {
    match h
    case Endpoint(_) => []
    case Wrapped(outer, inner) => [outer] + Layers(inner)
  }

  function Core(h: Handler): nat {
    match h
    case Endpoint(fn) => fn
    case Wrapped(_, inner) => Core(inner)
  }

  /** The first `n` middlewares that match `event`, in order. */
  function Matching(ms: seq<Middleware>, n: nat, event: string): seq<nat>
    requires n <= |ms|
  {
    if n == 0 then [] else Matching(ms, n - 1, event) + if MatchPattern(ms[n - 1].pattern, event)
        then [ms[n - 1].fn] else []
  }

  /** The inner loop of `compileInto`: from the last middleware down to the first. */
  function Wrap(ms: seq<Middleware>, n: nat, event: string, h: Handler): Handler
    requires n <= |ms|
  {
    if n == 0 then h
    else Wrap(ms, n - 1, event, if MatchPattern(ms[n - 1].pattern, event) then Wrapped(ms[n - 1].fn, h) else h)
  }

  /** Wrapping puts the matching middlewares around the handler in their order. */
  lemma {:induction false} WrapLayers(ms: seq<Middleware>, n: nat, event: string, h: Handler)
    requires n <= |ms|
    ensures Layers(Wrap(ms, n, event, h)) == Matching(ms, n, event) + Layers(h)
    ensures Core(Wrap(ms, n, event, h)) == Core(h)
  {
    if n == 0 {
    } else {
      var m := ms[n - 1];
      WrapLayers(ms, n - 1, event, if MatchPattern(m.pattern, event) then Wrapped(m.fn, h) else h);
    }
  }

  predicate ParentOk(nodes: seq<Node>, k: nat)
    requires k < |nodes|
  {
    if k == 0 then nodes[k].parent.None?
    else nodes[k].parent.Some? && nodes[k].parent.value < k && k in nodes[nodes[k].parent.value].groups
  }

  predicate ChildOk(nodes: seq<Node>, k: nat, child: nat) {
    k < child < |nodes| && nodes[child].parent == Some(k)
  }

  predicate ChildrenOk(nodes: seq<Node>, k: nat)
    requires k < |nodes|
  {
    forall g :: 0 <= g < |nodes[k].groups| ==> ChildOk(nodes, k, nodes[k].groups[g])
  }

  predicate TreeOk(nodes: seq<Node>) {
    |nodes| > 0 && forall k :: 0 <= k < |nodes| ==> ParentOk(nodes, k) && ChildrenOk(nodes, k)
  }

  function Parent(nodes: seq<Node>, k: nat): (p: nat)
    requires TreeOk(nodes) && 0 < k < |nodes|
    ensures p < k && k in nodes[p].groups && nodes[k].parent == Some(p)
  {
    assert ParentOk(nodes, k);
    nodes[k].parent.value
  }

  /** The middlewares that apply to group `k`: those of its ancestors, root first, then its own. */
  function PathMiddlewares(nodes: seq<Node>, k: nat): seq<Middleware>
    requires TreeOk(nodes) && k < |nodes|
  {
    Inherited(nodes, k) + nodes[k].middlewares
  }

  function Inherited(nodes: seq<Node>, k: nat): seq<Middleware>
    requires TreeOk(nodes) && k < |nodes|
    decreases k, 0
  {
    if k == 0 then []
    else
      var p := Parent(nodes, k);
      Inherited(nodes, p) + nodes[p].middlewares
  }

  /** The handler that route `j` of group `k` compiles to. */
  function Built(nodes: seq<Node>, k: nat, j: nat): Handler
    requires TreeOk(nodes) && k < |nodes| && j < |nodes[k].endpoints|
  {
    var route := nodes[k].endpoints[j];
    var ms := PathMiddlewares(nodes, k);
    Wrap(ms, |ms|, route.pattern, Endpoint(route.fn))
  }

  /** Group `k` lies in the subtree of `node`. */
  predicate Below(nodes: seq<Node>, node: nat, k: nat)
    requires TreeOk(nodes) && k < |nodes|
    decreases k
  {
    k == node || (k > node && Below(nodes, node, Parent(nodes, k)))
  }

  lemma {:induction false} AllBelowRoot(nodes: seq<Node>, k: nat)
    requires TreeOk(nodes) && k < |nodes|
    ensures Below(nodes, 0, k)
    decreases k
  {
    if k == 0 {
    } else {
      AllBelowRoot(nodes, Parent(nodes, k));
    }
  }

  lemma {:induction false} BelowAChild(nodes: seq<Node>, node: nat, k: nat) returns (g: nat)
    requires TreeOk(nodes) && node < k < |nodes| && Below(nodes, node, k)
    ensures g < |nodes[node].groups| && Below(nodes, nodes[node].groups[g], k)
    decreases k
  {
    var p := Parent(nodes, k);
    if p == node {
      g :| 0 <= g < |nodes[node].groups| && nodes[node].groups[g] == k;
    } else {
      g := BelowAChild(nodes, node, p);
    }
  }

  // ---------------------------------------------------------------- slices

  /** A Go slice of middlewares: a prefix of an array it may share. */
  datatype Slice = Slice(arr: array<Middleware>, len: nat)

  /** Room for `need` elements: the same array, or a new and possibly larger one with a copy. */
  method Grown(s: Slice, need: nat) returns (arr: array<Middleware>)
    requires s.len <= s.arr.Length && s.len <= need
    ensures need <= arr.Length && (arr == s.arr || fresh(arr)) && arr[..s.len] == s.arr[..s.len]
  {
    if need <= s.arr.Length {
      return s.arr;
    }
    var capacity: nat :| capacity >= need;
    arr := new Middleware[capacity](_ => Middleware("", 0));
    var i := 0;
    while i < s.len
      modifies arr
      invariant i <= s.len && arr[..i] == s.arr[..i]
    {
      arr[i] := s.arr[i];
      i := i + 1;
    }
    assert arr[..s.len] == s.arr[..s.len];
  }

  /** Go's `append`: in place if there is room, otherwise into a new array. */
  method Append(s: Slice, more: seq<Middleware>) returns (t: Slice)
    requires s.len <= s.arr.Length
    modifies s.arr
    ensures t.len == s.len + |more| <= t.arr.Length && (t.arr == s.arr || fresh(t.arr))
    ensures t.arr[..t.len] == old(s.arr[..s.len]) + more
    ensures s.arr[..s.len] == old(s.arr[..s.len])
  {
    var arr := Grown(s, s.len + |more|);
    t := Slice(arr, s.len + |more|);
    ghost var before := arr[..s.len];
    var i := 0;
    while i < |more|
      modifies arr
      invariant i <= |more| && arr[..s.len] == before
      invariant arr[s.len..s.len + i] == more[..i]
    {
      arr[s.len + i] := more[i];
      assert arr[s.len..s.len + i + 1] == arr[s.len..s.len + i] + [more[i]];
      i := i + 1;
    }
    assert more[..i] == more;
    assert arr[..t.len] == arr[..s.len] + arr[s.len..t.len];
  }

  // ---------------------------------------------------------------- the router

  type Registry = map<string, (nat, nat)>

  predicate RouteAt(nodes: seq<Node>, at: (nat, nat), p: string) {
    at.0 < |nodes| && at.1 < |nodes[at.0].endpoints| && nodes[at.0].endpoints[at.1].pattern == p
  }

  predicate EntryOk(registered: Registry, p: string, k: nat, j: nat) {
    p in registered && registered[p] == (k, j)
  }

  predicate EndpointsOk(nodes: seq<Node>, registered: Registry, k: nat)
    requires k < |nodes|
  {
    forall j :: 0 <= j < |nodes[k].endpoints| ==> EntryOk(registered, nodes[k].endpoints[j].pattern, k, j)
  }

  /** The registry lists every route of the tree, each under the one place it was registered. */
  predicate RegistryOk(nodes: seq<Node>, registered: Registry) {
    && (forall p :: p in registered ==> RouteAt(nodes, registered[p], p))
    && (forall k :: 0 <= k < |nodes| ==> EndpointsOk(nodes, registered, k))
  }

  predicate RightAt(nodes: seq<Node>, registered: Registry, p: string, h: Handler)
    requires TreeOk(nodes)
  {
    p in registered && RouteAt(nodes, registered[p], p) && h == Built(nodes, registered[p].0, registered[p].1)
  }

  /** Every compiled route has the handler it should have. */
  predicate Right(nodes: seq<Node>, registered: Registry, compiled: map<string, Handler>)
    requires TreeOk(nodes)
  {
    forall p :: p in compiled ==> RightAt(nodes, registered, p, compiled[p])
  }

  /** All routes of group `k` are compiled. */
  predicate Covered(nodes: seq<Node>, compiled: map<string, Handler>, k: nat)
    requires k < |nodes|
  {
    forall j :: 0 <= j < |nodes[k].endpoints| ==> nodes[k].endpoints[j].pattern in compiled
  }

  predicate Grows(before: map<string, Handler>, after: map<string, Handler>) {
    forall p :: p in before ==> p in after
  }

  lemma CoveredGrows(nodes: seq<Node>, before: map<string, Handler>, after: map<string, Handler>)
    requires Grows(before, after)
    ensures forall k :: 0 <= k < |nodes| && Covered(nodes, before, k) ==> Covered(nodes, after, k)
  {
  }

  lemma GrowsOn(a: map<string, Handler>, b: map<string, Handler>, c: map<string, Handler>)
    requires Grows(a, b) && Grows(b, c)
    ensures Grows(a, c)
  {
  }

  lemma SetRight(nodes: seq<Node>, registered: Registry, compiled: map<string, Handler>, k: nat, j: nat)
    requires TreeOk(nodes) && RegistryOk(nodes, registered) && Right(nodes, registered, compiled)
    requires k < |nodes| && j < |nodes[k].endpoints|
    ensures Right(nodes, registered, compiled[nodes[k].endpoints[j].pattern := Built(nodes, k, j)])
  {
    hide Built;
    assert EndpointsOk(nodes, registered, k);
    assert EntryOk(registered, nodes[k].endpoints[j].pattern, k, j);
  }

  /** Adding a middleware, a route or a group keeps the tree and the registry in order. */
  lemma UseKeeps(nodes: seq<Node>, registered: Registry, k: nat, m: Middleware)
    requires TreeOk(nodes) && RegistryOk(nodes, registered) && k < |nodes|
    ensures var n := nodes[k := nodes[k].(middlewares := nodes[k].middlewares + [m])];
      TreeOk(n) && RegistryOk(n, registered)
  {
    var n := nodes[k := nodes[k].(middlewares := nodes[k].middlewares + [m])];
    forall i | 0 <= i < |n| ensures ParentOk(n, i) && ChildrenOk(n, i) && EndpointsOk(n, registered, i) {
      assert ParentOk(nodes, i) && ChildrenOk(nodes, i) && EndpointsOk(nodes, registered, i);
      SameShape(nodes, n, i);
    }
  }

  lemma SameShape(nodes: seq<Node>, n: seq<Node>, i: nat)
    requires |n| == |nodes| && i < |n|
    requires forall x :: 0 <= x < |n| ==> n[x].parent == nodes[x].parent && n[x].groups == nodes[x].groups
    requires ParentOk(nodes, i) && ChildrenOk(nodes, i)
    ensures ParentOk(n, i) && ChildrenOk(n, i)
  {
    forall g | 0 <= g < |n[i].groups| ensures ChildOk(n, i, n[i].groups[g]) {
      assert ChildOk(nodes, i, nodes[i].groups[g]);
    }
  }

  lemma OnKeepsTree(nodes: seq<Node>, k: nat, r: Route)
    requires TreeOk(nodes) && k < |nodes|
    ensures TreeOk(nodes[k := nodes[k].(endpoints := nodes[k].endpoints + [r])])
  {
    var n := nodes[k := nodes[k].(endpoints := nodes[k].endpoints + [r])];
    forall i | 0 <= i < |n| ensures ParentOk(n, i) && ChildrenOk(n, i) {
      assert ParentOk(nodes, i) && ChildrenOk(nodes, i);
      SameShape(nodes, n, i);
    }
  }

  lemma OnKeepsRegistry(nodes: seq<Node>, registered: Registry, k: nat, r: Route)
    requires RegistryOk(nodes, registered) && k < |nodes| && r.pattern !in registered
    ensures RegistryOk(nodes[k := nodes[k].(endpoints := nodes[k].endpoints + [r])], registered[r.pattern := (k,
        |nodes[k].endpoints|)])
  {
    var n := nodes[k := nodes[k].(endpoints := nodes[k].endpoints + [r])];
    var registry := registered[r.pattern := (k, |nodes[k].endpoints|)];
    forall i | 0 <= i < |n| ensures EndpointsOk(n, registry, i) {
      assert EndpointsOk(nodes, registered, i);
      forall j | 0 <= j < |n[i].endpoints| ensures EntryOk(registry, n[i].endpoints[j].pattern, i, j) {
        if j < |nodes[i].endpoints| {
          assert EntryOk(registered, nodes[i].endpoints[j].pattern, i, j);
        }
      }
    }
    forall p | p in registry ensures RouteAt(n, registry[p], p) {
      if p != r.pattern {
        assert RouteAt(nodes, registered[p], p);
      }
    }
  }

  function Grouped(nodes: seq<Node>, k: nat, prefix: string): seq<Node>
    requires k < |nodes|
  {
    nodes[k := nodes[k].(groups := nodes[k].groups + [|nodes|])] + [Node(prefix, Some(k), [], [], [])]
  }

  lemma GroupKeepsTree(nodes: seq<Node>, k: nat, prefix: string)
    requires TreeOk(nodes) && k < |nodes|
    ensures TreeOk(Grouped(nodes, k, prefix))
  {
    var n := Grouped(nodes, k, prefix);
    forall i | 0 <= i < |n| ensures ParentOk(n, i) && ChildrenOk(n, i) {
      if i < |nodes| {
        assert ParentOk(nodes, i) && ChildrenOk(nodes, i);
        GroupKeepsNode(nodes, k, prefix, i);
      } else {
        assert n[k].groups[|nodes[k].groups|] == i;
      }
    }
  }

  lemma GroupKeepsNode(nodes: seq<Node>, k: nat, prefix: string, i: nat)
    requires k < |nodes| && i < |nodes| && ParentOk(nodes, i) && ChildrenOk(nodes, i)
    ensures ParentOk(Grouped(nodes, k, prefix), i) && ChildrenOk(Grouped(nodes, k, prefix), i)
  {
    var n := Grouped(nodes, k, prefix);
    forall g | 0 <= g < |n[i].groups| ensures ChildOk(n, i, n[i].groups[g]) {
      if g < |nodes[i].groups| {
        assert ChildOk(nodes, i, nodes[i].groups[g]);
      }
    }
  }

  lemma GroupKeepsRegistry(nodes: seq<Node>, registered: Registry, k: nat, prefix: string)
    requires RegistryOk(nodes, registered) && k < |nodes|
    ensures RegistryOk(Grouped(nodes, k, prefix), registered)
  {
    var n := Grouped(nodes, k, prefix);
    forall i | 0 <= i < |n| ensures EndpointsOk(n, registered, i) {
      assert i < |nodes| ==> EndpointsOk(nodes, registered, i);
    }
    forall p | p in registered ensures RouteAt(n, registered[p], p) {
      assert RouteAt(nodes, registered[p], p);
    }
  }

  // ---------------------------------------------------------------- prefixes

  function Own(prefix: string): seq<string> {
    if prefix != "" then [prefix] else []
  }

  /** The prefixes on the way from the root to `k`, without empty ones. */
  function Prefixes(nodes: seq<Node>, k: nat): seq<string>
    requires TreeOk(nodes) && k < |nodes|
    decreases k
  {
    (if k == 0 then [] else Prefixes(nodes, Parent(nodes, k))) + Own(nodes[k].prefix)
  }

  function FullPrefixOf(nodes: seq<Node>, k: nat): string
    requires TreeOk(nodes) && k < |nodes|
  {
    Joined(Prefixes(nodes, k), |Prefixes(nodes, k)|)
  }

  /** A group's prefix is that of its parent and its own, with a dot between them if both are
      there; the root has its own. */
  lemma PrefixNests(nodes: seq<Node>, k: nat)
    requires TreeOk(nodes) && k < |nodes|
    ensures var above := if k == 0 then "" else FullPrefixOf(nodes, Parent(nodes, k)); var own := nodes[k].prefix;
      FullPrefixOf(nodes, k) == if own == "" then above else if Above(nodes, k) == [] then own else above + "." + own
  {
    var parts, own := Above(nodes, k), nodes[k].prefix;
    if own == "" {
      assert parts + Own(own) == parts;
    } else {
      JoinedFront(parts, [own], |parts|);
    }
  }

  lemma {:induction false} JoinedFront(parts: seq<string>, more: seq<string>, n: nat)
    requires n <= |parts|
    ensures Joined(parts + more, n) == Joined(parts, n)
  {
    if n <= 1 {
    } else {
      JoinedFront(parts, more, n - 1);
    }
  }

  /** The prefixes above `k`. */
  function Above(nodes: seq<Node>, k: nat): seq<string>
    requires TreeOk(nodes) && k < |nodes|
  {
    if k == 0 then [] else Prefixes(nodes, Parent(nodes, k))
  }

  lemma PrefixesSplit(nodes: seq<Node>, k: nat, rest: seq<string>)
    requires TreeOk(nodes) && k < |nodes|
    ensures Prefixes(nodes, k) + rest == Above(nodes, k) + (Own(nodes[k].prefix) + rest)
  {
    OwnLast(nodes, k);
    hide *;
    Associative(Above(nodes, k), Own(nodes[k].prefix), rest);
  }

  lemma OwnLast(nodes: seq<Node>, k: nat)
    requires TreeOk(nodes) && k < |nodes|
    ensures Prefixes(nodes, k) == Above(nodes, k) + Own(nodes[k].prefix)
  {
    hide TreeOk, Own;
  }

  lemma Associative(a: seq<string>, b: seq<string>, c: seq<string>)
    ensures a + b + c == a + (b + c)
  {
  }

  /** Walks up from `k` collecting the prefixes that are not empty. */
  method CollectPrefixes(nodes: seq<Node>, k: nat) returns (parts: seq<string>)
    requires TreeOk(nodes) && k < |nodes|
    ensures Reversed(parts) == Prefixes(nodes, k)
  {
    hide TreeOk, Reversed, Own, Prefixes;
    parts := [];
    ReversedOwn(parts, nodes[k].prefix);
    PrefixesSplit(nodes, k, Reversed(parts));
    assert Prefixes(nodes, k) + [] == Prefixes(nodes, k);
    parts := parts + Own(nodes[k].prefix);
    var current: nat := k;
    while current > 0
      invariant current < |nodes| && Above(nodes, current) + Reversed(parts) == Prefixes(nodes, k)
    {
      current := Parent(nodes, current);
      ReversedOwn(parts, nodes[current].prefix);
      PrefixesSplit(nodes, current, Reversed(parts));
      parts := parts + Own(nodes[current].prefix);
    }
    assert [] + Reversed(parts) == Reversed(parts);
  }

  /** Reverses by swapping from both ends. */
  method ReverseParts(parts: seq<string>) returns (r: seq<string>)
    ensures r == Reversed(parts)
  {
    r := parts;
    var i, j := 0, |r| - 1;
    while i < j
      invariant 0 <= i <= |r| == |parts| && j == |r| - 1 - i && i <= j + 1
      invariant forall x :: 0 <= x < i || j < x < |r| ==> r[x] == parts[|r| - 1 - x]
      invariant forall x :: i <= x <= j ==> r[x] == parts[x]
    {
      r := r[i := r[j]][j := r[i]];
      i, j := i + 1, j - 1;
    }
    ReversedAt(parts);
  }

  method FullPrefix(nodes: seq<Node>, k: nat) returns (prefix: string)
    requires TreeOk(nodes) && k < |nodes|
    ensures prefix == FullPrefixOf(nodes, k)
  {
    var parts := CollectPrefixes(nodes, k);
    parts := ReverseParts(parts);
    prefix := Joined(parts, |parts|);
  }

  /** The inner loop of `compileInto`, from the last middleware down to the first. */
  method WrapRoute(ms: Slice, route: Route) returns (handler: Handler)
    requires ms.len <= ms.arr.Length
    ensures handler == Wrap(ms.arr[..ms.len], ms.len, route.pattern, Endpoint(route.fn))
  {
    handler := Endpoint(route.fn);
    ghost var path := ms.arr[..ms.len];
    var i := ms.len;
    while i > 0
      invariant 0 <= i <= ms.len
      invariant Wrap(path, i, route.pattern, handler) == Wrap(path, ms.len, route.pattern, Endpoint(route.fn))
    {
      i := i - 1;
      assert ms.arr[i] == path[i];
      if MatchPattern(ms.arr[i].pattern, route.pattern) {
        handler := Wrapped(ms.arr[i].fn, handler);
      }
    }
  }

  // ---------------------------------------------------------------- the object

  datatype Error = RouterCompiled | MiddlewareNil | HandlerNil | PatternEmpty | AlreadyExists

  class CompiledRouter {
    var nodes: seq<Node>
    /** Where each registered route was registered: group and position. */
    var registered: Registry
    var compiled: map<string, Handler>
    var isCompiled: bool

    ghost predicate Valid()
      reads this
    {
      TreeOk(nodes) && RegistryOk(nodes, registered)
    }

    constructor ()
      ensures Valid() && !isCompiled && registered == map[]
      ensures nodes == [Node("", None, [], [], [])]
    {
      nodes, registered, compiled, isCompiled := [Node("", None, [], [], [])], map[], map[], false;
    }

    method Use(k: nat, pattern: string, fn: Option<nat>) returns (error: Option<Error>)
      requires Valid() && k < |nodes|
      modifies this`nodes
      ensures Valid()
      ensures error == (if k == 0 && isCompiled then Some(RouterCompiled) else if fn.None?
          then Some(MiddlewareNil) else None)
      ensures error.Some? ==> nodes == old(nodes)
      ensures error.None? ==>
        var m := Middleware(ScopedPattern(FullPrefixOf(old(nodes), k), pattern), fn.value);
        nodes == old(nodes)[k := old(nodes)[k].(middlewares := old(nodes)[k].middlewares + [m])]
    {
      hide TreeOk, RegistryOk, ScopedPattern;
      if k == 0 && isCompiled {
        return Some(RouterCompiled);
      }
      if fn.None? {
        return Some(MiddlewareNil);
      }
      var prefix := FullPrefix(nodes, k);
      var m := Middleware(ScopedPattern(prefix, pattern), fn.value);
      UseKeeps(nodes, registered, k, m);
      nodes := nodes[k := nodes[k].(middlewares := nodes[k].middlewares + [m])];
      return None;
    }

    method On(k: nat, pattern: string, fn: Option<nat>) returns (error: Option<Error>)
      requires Valid() && k < |nodes|
      modifies this`nodes, this`registered
      ensures Valid()
      ensures var full := JoinPattern(FullPrefixOf(old(nodes), k), pattern);
        && error == (if k == 0 && isCompiled then Some(RouterCompiled) else if fn.None? then Some(HandlerNil)
                     else if full == "" then Some(PatternEmpty) else if full in old(registered)
                         then Some(AlreadyExists) else None)
        && (error.Some? ==> nodes == old(nodes) && registered == old(registered))
        && (error.None? ==>
              && registered == old(registered)[full := (k, |old(nodes)[k].endpoints|)]
              && nodes == old(nodes)[k := old(nodes)[k].(endpoints := old(nodes)[k].endpoints + [Route(full,
                  fn.value)])])
    {
      hide TreeOk, RegistryOk, JoinPattern;
      if k == 0 && isCompiled {
        return Some(RouterCompiled);
      }
      if fn.None? {
        return Some(HandlerNil);
      }
      var prefix := FullPrefix(nodes, k);
      var full := JoinPattern(prefix, pattern);
      if full == "" {
        return Some(PatternEmpty);
      }
      if full in registered {
        return Some(AlreadyExists);
      }
      OnKeepsTree(nodes, k, Route(full, fn.value));
      OnKeepsRegistry(nodes, registered, k, Route(full, fn.value));
      registered := registered[full := (k, |nodes[k].endpoints|)];
      nodes := nodes[k := nodes[k].(endpoints := nodes[k].endpoints + [Route(full, fn.value)])];
      return None;
    }

    method Group(k: nat, prefix: string) returns (group: nat)
      requires Valid() && k < |nodes| && (k == 0 ==> !isCompiled)
      modifies this`nodes
      ensures Valid() && group == |old(nodes)| && nodes == Grouped(old(nodes), k, prefix)
    {
      hide TreeOk, RegistryOk;
      GroupKeepsTree(nodes, k, prefix);
      GroupKeepsRegistry(nodes, registered, k, prefix);
      group := |nodes|;
      nodes := nodes[k := nodes[k].(groups := nodes[k].groups + [group])] + [Node(prefix, Some(k), [], [], [])];
    }

    method CompileEndpoints(k: nat, ms: Slice)
      requires Valid() && k < |nodes| && Right(nodes, registered, compiled)
      requires ms.len <= ms.arr.Length && ms.arr[..ms.len] == PathMiddlewares(nodes, k)
      modifies this`compiled
      ensures Right(nodes, registered, compiled) && Covered(nodes, compiled, k) && Grows(old(compiled), compiled)
    {
      hide TreeOk, RegistryOk, Right, PathMiddlewares, Wrap;
      var j := 0;
      while j < |nodes[k].endpoints|
        invariant j <= |nodes[k].endpoints| && Right(nodes, registered, compiled) && Grows(old(compiled), compiled)
        invariant forall x :: 0 <= x < j ==> nodes[k].endpoints[x].pattern in compiled
      {
        var route := nodes[k].endpoints[j];
        var handler := WrapRoute(ms, route);
        assert handler == Built(nodes, k, j);
        SetRight(nodes, registered, compiled, k, j);
        compiled := compiled[route.pattern := handler];
        j := j + 1;
      }
    }

    method CompileInto(k: nat, inherited: Slice)
      requires Valid() && k < |nodes| && Right(nodes, registered, compiled)
      requires inherited.len <= inherited.arr.Length && inherited.arr[..inherited.len] == Inherited(nodes, k)
      modifies this`compiled, inherited.arr
      ensures Right(nodes, registered, compiled) && Grows(old(compiled), compiled)
      ensures forall x :: 0 <= x < |nodes| && Below(nodes, k, x) ==> Covered(nodes, compiled, x)
      ensures inherited.arr[..inherited.len] == old(inherited.arr[..inherited.len])
      decreases |nodes| - k
    {
      hide TreeOk, RegistryOk, Right, Below, Inherited, Covered, Grows;
      var ms := Append(inherited, nodes[k].middlewares);
      CompileEndpoints(k, ms);
      var g := 0;
      while g < |nodes[k].groups|
        invariant g <= |nodes[k].groups| && Right(nodes, registered, compiled) && Covered(nodes, compiled, k)
        invariant Grows(old(compiled), compiled) && ms.arr[..ms.len] == PathMiddlewares(nodes, k)
        invariant inherited.arr[..inherited.len] == old(inherited.arr[..inherited.len])
        invariant forall d, x :: 0 <= d < g && 0 <= x < |nodes| && Below(nodes, nodes[k].groups[d], x) ==>
                    Covered(nodes, compiled, x)
      {
        InheritedByChild(nodes, k, g);
        ghost var before, was := ms.arr[..ms.len], compiled;
        CompileInto(nodes[k].groups[g], ms);
        assert ms.arr == inherited.arr ==> inherited.arr[..inherited.len] == before[..inherited.len];
        CoveredGrows(nodes, was, compiled);
        GrowsOn(old(compiled), was, compiled);
        g := g + 1;
      }
      forall x | 0 <= x < |nodes| && Below(nodes, k, x) ensures Covered(nodes, compiled, x) {
        if x != k {
          BelowIsLater(nodes, k, x);
          var d := BelowAChild(nodes, k, x);
        }
      }
    }

    /** Compiles every route of the tree; a second call does nothing. */
    method Compile()
      requires Valid()
      modifies this
      ensures nodes == old(nodes) && registered == old(registered) && isCompiled
      ensures old(isCompiled) ==> compiled == old(compiled)
      ensures !old(isCompiled) ==>
        compiled.Keys == registered.Keys && TreeOk(nodes) && Right(nodes, registered, compiled)
    {
      hide Below, RightAt, ParentOk, ChildrenOk;
      if isCompiled {
        return;
      }
      compiled := map[];
      var none := new Middleware[0](_ => Middleware("", 0));
      assert none[..0] == Inherited(nodes, 0);
      CompileInto(0, Slice(none, 0));
      isCompiled := true;
      RightIsRegistered(nodes, registered, compiled);
      forall p | p in registered ensures p in compiled {
        assert RouteAt(nodes, registered[p], p);
        AllBelowRoot(nodes, registered[p].0);
        assert Covered(nodes, compiled, registered[p].0);
      }
    }
  }

  lemma InheritedByChild(nodes: seq<Node>, k: nat, g: nat)
    requires TreeOk(nodes) && k < |nodes| && g < |nodes[k].groups|
    ensures k < nodes[k].groups[g] < |nodes| && Inherited(nodes, nodes[k].groups[g]) == PathMiddlewares(nodes, k)
  {
    assert ChildrenOk(nodes, k);
    assert ChildOk(nodes, k, nodes[k].groups[g]);
  }

  lemma BelowIsLater(nodes: seq<Node>, node: nat, k: nat)
    requires TreeOk(nodes) && k < |nodes| && Below(nodes, node, k)
    ensures node <= k
  {
  }

  lemma RightIsRegistered(nodes: seq<Node>, registered: Registry, compiled: map<string, Handler>)
    requires TreeOk(nodes) && Right(nodes, registered, compiled)
    ensures forall p :: p in compiled ==> p in registered
  {
    forall p | p in compiled ensures p in registered {
      assert RightAt(nodes, registered, p, compiled[p]);
    }
  }

  /** What `Compile` promises, in terms of the registered tree alone: a compiled route leads to
      the function it was registered with, through exactly the middlewares of its ancestors and
      of its own group that match it, root first and in registration order. */
  lemma CompiledRoute(nodes: seq<Node>, registered: Registry, compiled: map<string, Handler>, k: nat, j: nat)
    requires TreeOk(nodes) && RegistryOk(nodes, registered) && Right(nodes, registered, compiled)
    requires compiled.Keys == registered.Keys && k < |nodes| && j < |nodes[k].endpoints|
    ensures var route := nodes[k].endpoints[j];
      && route.pattern in compiled
      && Core(compiled[route.pattern]) == route.fn
      && Layers(compiled[route.pattern]) == Matching(PathMiddlewares(nodes, k), |PathMiddlewares(nodes, k)|,
          route.pattern)
  {
    hide TreeOk, PathMiddlewares, Wrap;
    var route := nodes[k].endpoints[j];
    assert EndpointsOk(nodes, registered, k);
    assert EntryOk(registered, route.pattern, k, j);
    assert RightAt(nodes, registered, route.pattern, compiled[route.pattern]);
    var ms := PathMiddlewares(nodes, k);
    WrapLayers(ms, |ms|, route.pattern, Endpoint(route.fn));
  }

  // ---------------------------------------------------------------- strings

  function Reversed(s: seq<string>): seq<string> {
    if s == [] then [] else [s[|s| - 1]] + Reversed(s[..|s| - 1])
  }

  lemma ReversedOwn(s: seq<string>, prefix: string)
    ensures Reversed([]) == [] && Reversed(s + Own(prefix)) == Own(prefix) + Reversed(s)
  {
    if prefix != "" {
      assert (s + [prefix])[..|s|] == s;
    } else {
      assert s + [] == s;
    }
  }

  lemma {:induction false} ReversedAt(s: seq<string>)
    ensures |Reversed(s)| == |s| && forall i :: 0 <= i < |s| ==> Reversed(s)[i] == s[|s| - 1 - i]
  {
    if s == [] {
    } else {
      ReversedAt(s[..|s| - 1]);
    }
  }

  /** Go's `strings.Join(parts, ".")`. */
  function Joined(parts: seq<string>, n: nat): string
    requires n <= |parts|
  {
    if n == 0 then "" else if n == 1 then parts[0] else Joined(parts, n - 1) + "." + parts[n - 1]
  }
}
