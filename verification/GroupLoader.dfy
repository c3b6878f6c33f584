/** `load_group_outbounds` of clash-lib/src/app/outbound/manager.rs: sorts the groups and
    builds their handlers in that order.  A handler is represented by its name. */
module GroupLoader {
  import opened Basics
  import opened RefGraph
  import opened ProxyGroups

  datatype LoadError =
    | BadOrder(error: SortError)
    | EmptyGroup(name: string)
    | ReservedName(name: string)
    | ProxyNotFound(name: string)
    | NoProxies(name: string)
    | ProviderNotFound(name: string)

  predicate Reserved(name: string) {
    name == "DIRECT" || name == "REJECT"
  }

  function Length(names: Option<seq<string>>): nat {
    match names
    case None => 0
    case Some(s) => |s|
  }

  // The first name of a list that is not known.
  predicate FirstMissing(names: seq<string>, known: set<string>, name: string) {
    exists i :: 0 <= i < |names| && names[i] == name && name !in known && forall j :: 0 <= j < i ==> names[j] in known
  }

  method FirstUnknown(names: seq<string>, known: set<string>) returns (r: Option<string>)
    ensures r.None? ==> forall i :: 0 <= i < |names| ==> names[i] in known
    ensures r.Some? ==> FirstMissing(names, known, r.value)
  {
    for i := 0 to |names|
      invariant forall j :: 0 <= j < i ==> names[j] in known
    {
      if names[i] !in known { return Some(names[i]); }
    }
    r := None;
  }

  /** `make_provider_from_proxies` */
  method MakeProvider(name: string, proxies: seq<string>, handlers: set<string>, registry0: set<string>)
    returns (error: Option<LoadError>, registry: set<string>)
    ensures name in ["DIRECT", "REJECT"] <==> error == Some(ReservedName(name))
    ensures error.None? <==> !Reserved(name) && proxies != [] && forall p :: p in proxies ==> p in handlers
    ensures registry == if error.None? then registry0 + {name} else registry0
    ensures error.Some? ==>
      match error.value {
        case ReservedName(n) => n == name && Reserved(name)
        case ProxyNotFound(n) => FirstMissing(proxies, handlers, n) && !Reserved(name)
        case NoProxies(n) => n == name && proxies == [] && !Reserved(name)
        case _ => false
      }
  {
    registry := registry0;
    if Reserved(name) { return Some(ReservedName(name)), registry; }
    var unknown := FirstUnknown(proxies, handlers);
    if unknown.Some? { return Some(ProxyNotFound(unknown.value)), registry; }
    if proxies == [] { return Some(NoProxies(name)), registry; }
    error, registry := None, registry0 + {name};
  }

  // A fault of a group, given the handlers and providers that are known.
  predicate Faulty(g: Group, handlers: set<string>, registry: set<string>, error: LoadError) {
    match error
    case BadOrder(_) => false
    case EmptyGroup(n) => n == g.name && Length(g.proxies) + Length(g.useProvider) == 0
    case ReservedName(n) => n == g.name && g.proxies.Some? && Reserved(n)
    case ProxyNotFound(n) => n in Refs(g) && n !in handlers
    case NoProxies(n) => n == g.name && g.proxies == Some([])
    case ProviderNotFound(n) => g.useProvider.Some? && n in g.useProvider.value && n !in registry
  }

  /** Why a group is refused at its turn: the first fault, in the order in which the source
      looks for them, and the first name that is missing. */
  predicate Refused(g: Group, handlers: set<string>, registry: set<string>, error: LoadError) {
    && Faulty(g, handlers, registry, error)
    && (!error.EmptyGroup? ==> Length(g.proxies) + Length(g.useProvider) > 0)
    && (error.ProxyNotFound? ==> !Reserved(g.name) && FirstMissing(Refs(g), handlers, error.name))
    && (error.NoProxies? ==> !Reserved(g.name))
    && (error.ProviderNotFound? ==>
          && FirstMissing(g.useProvider.value, registry, error.name)
          && (g.proxies.Some? ==>
                !Reserved(g.name) && g.proxies.value != [] && forall p :: p in Refs(g) ==> p in handlers))
  }

  // Everything the group needs is known.
  predicate Buildable(g: Group, handlers: set<string>, registry: set<string>) {
    && Length(g.proxies) + Length(g.useProvider) > 0
    && (g.proxies.Some? ==> !Reserved(g.name) && g.proxies.value != [] && forall p :: p in g.proxies.value ==>
        p in handlers)
    && (g.useProvider.Some? ==> forall p :: p in g.useProvider.value ==> p in registry)
  }

  // A group with proxies becomes a provider of its own name, and may use it itself.
  function WithOwn(g: Group, registry: set<string>): set<string> {
    if g.proxies.Some? then registry + {g.name} else registry
  }

  /** One turn of the loop over the sorted groups; the six kinds of group do the same. */
  method BuildHandler(g: Group, handlers0: set<string>, registry0: set<string>)
    returns (error: Option<LoadError>, handlers: set<string>, registry: set<string>)
    ensures error.None? <==> Buildable(g, handlers0, WithOwn(g, registry0))
    ensures error.None? ==> handlers == handlers0 + {g.name} && registry == WithOwn(g, registry0)
    ensures error.Some? ==> handlers == handlers0 && Refused(g, handlers0, WithOwn(g, registry0), error.value)
  {
    handlers, registry := handlers0, registry0;
    if Length(g.proxies) + Length(g.useProvider) == 0 {
      return Some(EmptyGroup(g.name)), handlers, registry;
    }
    match g.proxies {
      case None =>
      case Some(proxies) =>
        error, registry := MakeProvider(g.name, proxies, handlers, registry);
        if error.Some? { return; }
    }
    match g.useProvider {
      case None =>
      case Some(names) =>
        var unknown := FirstUnknown(names, registry);
        if unknown.Some? { return Some(ProviderNotFound(unknown.value)), handlers, registry; }
    }
    error, handlers := None, handlers + {g.name};
  }

  ghost function Names(gs: seq<Group>): set<string> {
    set g | g in gs :: g.name
  }

  ghost function Made(gs: seq<Group>): set<string> {
    set g | g in gs && g.proxies.Some? :: g.name
  }

  // In a sorted list, what a group lists among the groups comes before it.
  lemma ListedBefore(gs: seq<Group>, i: nat, n: string)
    requires Sorted(gs) && i < |gs|
    ensures n in Refs(gs[i]) && n in Names(gs) ==> n in Names(gs[..i])
  {
    if n in Refs(gs[i]) && n in Names(gs) {
      var g :| g in gs && g.name == n;
      var j :| 0 <= j < |gs| && gs[j] == g;
      assert gs[..i][j] == g;
    }
  }

  ghost predicate Orderly(all: seq<Group>) {
    DistinctNames(all) && Acyclic(all)
  }

  // The first i groups have their handlers and providers, and what they name was there.
  ghost predicate BuiltUpTo(gs: seq<Group>, i: nat, loaded: set<string>, providers: set<string>, handlers: set<string>,
                            registry: set<string>)
    requires i <= |gs|
  {
    && handlers == loaded + Names(gs[..i]) && registry == providers + Made(gs[..i])
    && (forall k, p :: 0 <= k < i && p in Refs(gs[k]) ==> p in handlers)
    && (forall k, p :: 0 <= k < i && gs[k].useProvider.Some? && p in gs[k].useProvider.value ==> p in registry)
  }

  lemma BuiltOneMore(gs: seq<Group>, i: nat, loaded: set<string>, providers: set<string>, handlers: set<string>,
                     registry: set<string>)
    requires i < |gs| && BuiltUpTo(gs, i, loaded, providers, handlers, registry)
    requires Buildable(gs[i], handlers, WithOwn(gs[i], registry))
    ensures BuiltUpTo(gs, i + 1, loaded, providers, handlers + {gs[i].name}, WithOwn(gs[i], registry))
  {
    assert gs[..i + 1] == gs[..i] + [gs[i]];
  }

  // What a group needs is there when its turn comes.
  ghost predicate BuildableInTurn(gs: seq<Group>, i: nat, loaded: set<string>, providers: set<string>)
    requires i < |gs|
  {
    Buildable(gs[i], loaded + Names(gs[..i]), WithOwn(gs[i], providers + Made(gs[..i])))
  }

  ghost predicate BuildableInOrder(gs: seq<Group>, loaded: set<string>, providers: set<string>) {
    forall i :: 0 <= i < |gs| ==> BuildableInTurn(gs, i, loaded, providers)
  }

  // The first group that is not in order in its turn, and why.
  ghost predicate FirstRefused(gs: seq<Group>, i: nat, loaded: set<string>, providers: set<string>, error: LoadError)
    requires i < |gs|
  {
    && BuildableInOrder(gs[..i], loaded, providers)
    && Refused(gs[i], loaded + Names(gs[..i]), WithOwn(gs[i], providers + Made(gs[..i])), error)
  }

  ghost predicate OneIsRefused(gs: seq<Group>, loaded: set<string>, providers: set<string>, error: LoadError) {
    exists i :: 0 <= i < |gs| && FirstRefused(gs, i, loaded, providers, error)
  }

  // A group has this fault even if all groups of the list had their handlers.
  ghost predicate OneIsFaulty(gs: seq<Group>, loaded: set<string>, providers: set<string>, error: LoadError) {
    exists g :: g in gs && Faulty(g, loaded + Names(gs), providers, error)
  }

  lemma RefusedIsFaulty(gs: seq<Group>, all: seq<Group>, loaded: set<string>, providers: set<string>, error: LoadError)
    requires Sorted(gs) && multiset(gs) == multiset(all) && OneIsRefused(gs, loaded, providers, error)
    ensures OneIsFaulty(all, loaded, providers, error)
  {
    var i :| 0 <= i < |gs| && FirstRefused(gs, i, loaded, providers, error);
    RefusedAnyway(gs, i, loaded, providers, providers + Made(gs[..i]), error);
    SameMembers(gs, all);
    assert gs[i] in gs && gs[i] in all;
  }

  lemma BuildablePrefix(gs: seq<Group>, i: nat, loaded: set<string>, providers: set<string>)
    requires i <= |gs| && forall k :: 0 <= k < i ==> BuildableInTurn(gs, k, loaded, providers)
    ensures BuildableInOrder(gs[..i], loaded, providers)
  {
    forall k | 0 <= k < i ensures BuildableInTurn(gs[..i], k, loaded, providers) {
      assert BuildableInTurn(gs, k, loaded, providers);
      assert gs[..i][..k] == gs[..k];
    }
  }

  // The loop over the sorted groups.
  method BuildAll(gs: seq<Group>, loaded: set<string>, providers: set<string>)
    returns (error: Option<LoadError>, handlers: set<string>, registry: set<string>)
    requires Sorted(gs)
    ensures error.None? ==> BuiltUpTo(gs, |gs|, loaded, providers, handlers, registry)
    ensures error.None? <==> BuildableInOrder(gs, loaded, providers)
    ensures error.Some? ==> OneIsRefused(gs, loaded, providers, error.value)
  {
    error, handlers, registry := None, loaded, providers;
    for i := 0 to |gs|
      invariant BuiltUpTo(gs, i, loaded, providers, handlers, registry)
      invariant forall k :: 0 <= k < i ==> BuildableInTurn(gs, k, loaded, providers)
    {
      ghost var before, known := handlers, registry;
      error, handlers, registry := BuildHandler(gs[i], handlers, registry);
      assert error.None? <==> BuildableInTurn(gs, i, loaded, providers);
      if error.Some? {
        BuildablePrefix(gs, i, loaded, providers);
        assert FirstRefused(gs, i, loaded, providers, error.value);
        return;
      }
      BuiltOneMore(gs, i, loaded, providers, before, known);
    }
    error := None;
  }

  ghost predicate AllBuildable(gs: seq<Group>, loaded: set<string>, providers: set<string>) {
    forall g :: g in gs ==> Buildable(g, loaded + Names(gs), providers)
  }

  // No group uses the provider of another one.
  ghost predicate UsesGiven(gs: seq<Group>, providers: set<string>) {
    forall g, p :: g in gs && g.useProvider.Some? && p in g.useProvider.value ==> p in providers
  }

  lemma InTurnIsAll(gs: seq<Group>, loaded: set<string>, providers: set<string>)
    requires Sorted(gs)
    ensures AllBuildable(gs, loaded, providers) ==> BuildableInOrder(gs, loaded, providers)
    ensures UsesGiven(gs, providers) && BuildableInOrder(gs, loaded, providers) ==> AllBuildable(gs, loaded, providers)
  {
    forall i | 0 <= i < |gs|
      ensures Buildable(gs[i], loaded + Names(gs), providers) ==> BuildableInTurn(gs, i, loaded, providers)
      ensures UsesGiven(gs, providers) && BuildableInTurn(gs, i, loaded, providers) ==>
        Buildable(gs[i], loaded + Names(gs), providers)
    {
      assert gs[i] in gs;
      InOrderSuffices(gs, i, loaded, providers, providers + Made(gs[..i]));
      NamesWithin(gs, i);
    }
  }

  lemma NamesWithin(gs: seq<Group>, i: nat)
    requires i <= |gs|
    ensures Names(gs[..i]) <= Names(gs)
  {
    forall g | g in gs[..i] ensures g in gs {}
  }

  /** `load_group_outbounds`.  After a successful sort a proxy is reported as not found only
      when it is neither a loaded outbound nor any group of the list, wherever the groups
      stood in the configuration; other errors name a group with that fault.  On success
      every group has its handler, those with proxies are providers, and every proxy and
      provider that is named was found.  It succeeds exactly if each group is in order when
      its turn comes; if none uses the provider of another, exactly if all are in order. */
  method LoadGroupOutbounds(groups: array<Group>, loaded: set<string>, providers: set<string>)
    returns (error: Option<LoadError>, handlers: set<string>, registry: set<string>)
    modifies groups
    ensures error.None? ==> Orderly(old(groups[..]))
    ensures error.None? ==> handlers == loaded + Names(old(groups[..])) && registry == providers + Made(old(groups[..]))
    ensures error.None? ==> forall g, p :: g in old(groups[..]) && p in Refs(g) ==> p in handlers
    ensures error.None? ==>
      forall g, p :: g in old(groups[..]) && g.useProvider.Some? && p in g.useProvider.value ==> p in registry
    ensures error.Some? && error.value.BadOrder? <==> !Orderly(old(groups[..]))
    ensures error.Some? && !error.value.BadOrder? ==>
      && OneIsFaulty(old(groups[..]), loaded, providers, error.value)
      && OneIsRefused(groups[..], loaded, providers, error.value)
    ensures Orderly(old(groups[..])) ==>
      && multiset(groups[..]) == multiset(old(groups[..])) && Sorted(groups[..])
      && (error.None? <==> BuildableInOrder(groups[..], loaded, providers))
    ensures Orderly(old(groups[..])) && AllBuildable(old(groups[..]), loaded, providers) ==> error.None?
    ensures UsesGiven(old(groups[..]), providers) ==>
      (error.None? <==> Orderly(old(groups[..])) && AllBuildable(old(groups[..]), loaded, providers))
  {
    handlers, registry := loaded, providers;
    ghost var all := groups[..];
    var sorting := DagSort(groups);
    if sorting.Some? { return Some(BadOrder(sorting.value)), handlers, registry; }
    var gs := groups[..];
    SameMembers(gs, all);
    error, handlers, registry := BuildAll(gs, loaded, providers);
    if error.Some? { RefusedIsFaulty(gs, all, loaded, providers, error.value); }
    InTurnIsAll(gs, loaded, providers);
    SameDemands(gs, all, loaded, providers);
    assert gs[..|gs|] == gs;
  }

  lemma SameDemands(a: seq<Group>, b: seq<Group>, loaded: set<string>, providers: set<string>)
    requires multiset(a) == multiset(b)
    ensures AllBuildable(a, loaded, providers) <==> AllBuildable(b, loaded, providers)
    ensures UsesGiven(a, providers) <==> UsesGiven(b, providers)
  {
    SameMembers(a, b);
  }

  /** The sort takes no notice of `use`.  Of two orders that it may leave, the one in which a
      group comes after the group whose provider it uses loads, and the other does not. */
  method UseTurnsOnOrder(a: Group, b: Group, x: string) returns (first: Option<LoadError>, second: Option<LoadError>)
    requires UsesOther(a, b, x)
    ensures Sorted([a, b]) && Sorted([b, a]) && Orderly([a, b])
    ensures first.None? && second == Some(ProviderNotFound(a.name))
  {
    EitherOrder(a, b, x);
    var handlers, registry;
    first, handlers, registry := BuildAll([a, b], {x}, {});
    second, handlers, registry := BuildAll([b, a], {x}, {});
    if second.Some? {
      ghost var i :| 0 <= i < |[b, a]| && FirstRefused([b, a], i, {x}, {}, second.value);
      OnlyOther(a, b, x, i, second.value);
    }
  }

  // One group lists a loaded proxy, and another uses the provider that makes.
  predicate UsesOther(a: Group, b: Group, x: string) {
    && a.name != b.name && a.name != x && b.name != x && !Reserved(a.name)
    && a.proxies == Some([x]) && a.useProvider == None && b.proxies == None && b.useProvider == Some([a.name])
  }

  lemma EitherOrder(a: Group, b: Group, x: string)
    requires UsesOther(a, b, x)
    ensures Sorted([a, b]) && Sorted([b, a]) && Orderly([a, b])
    ensures BuildableInOrder([a, b], {x}, {}) && !BuildableInOrder([b, a], {x}, {})
  {
    forall path ensures !Cycle([a, b], path) { OneEdge(a, b, x, path); }
    assert [a, b][..0] == [] && [a, b][..1] == [a] && [b, a][..0] == [];
    assert BuildableInTurn([a, b], 0, {x}, {}) && BuildableInTurn([a, b], 1, {x}, {});
    assert !BuildableInTurn([b, a], 0, {x}, {});
  }

  lemma OneEdge(a: Group, b: Group, x: string, path: seq<string>)
    requires UsesOther(a, b, x)
    ensures !Cycle([a, b], path)
  {
    assert forall m, n :: Edge([a, b], m, n) ==> m == a.name && n == x;
    if path != [] && Edge([a, b], path[|path| - 1], path[0]) { assert !LinkedAt([a, b], path, 0); }
  }

  lemma OnlyOther(a: Group, b: Group, x: string, i: nat, error: LoadError)
    requires UsesOther(a, b, x) && i < 2 && FirstRefused([b, a], i, {x}, {}, error)
    ensures error == ProviderNotFound(a.name)
  {
    var gs := [b, a];
    assert gs[..0] == [] && gs[..1] == [b] && [b][..0] == [];
    assert !BuildableInTurn([b], 0, {x}, {});
  }

  // What is known when the group's turn comes is as good as knowing all groups.
  lemma InOrderSuffices(gs: seq<Group>, i: nat, loaded: set<string>, providers: set<string>, registry: set<string>)
    requires Sorted(gs) && i < |gs| && providers <= registry
    ensures Buildable(gs[i], loaded + Names(gs), providers) ==>
      Buildable(gs[i], loaded + Names(gs[..i]), WithOwn(gs[i], registry))
  {
    forall n | n in Refs(gs[i]) && n in loaded + Names(gs) ensures n in loaded + Names(gs[..i]) {
      ListedBefore(gs, i, n);
    }
  }

  lemma RefusedAnyway(gs: seq<Group>, i: nat, loaded: set<string>, providers: set<string>, registry: set<string>,
                      error: LoadError)
    requires Sorted(gs) && i < |gs| && providers <= registry
    requires Refused(gs[i], loaded + Names(gs[..i]), WithOwn(gs[i], registry), error)
    ensures Faulty(gs[i], loaded + Names(gs), providers, error)
  {
    if error.ProxyNotFound? { ListedBefore(gs, i, error.name); }
  }

  lemma SameMembers(a: seq<Group>, b: seq<Group>)
    requires multiset(a) == multiset(b)
    ensures forall g :: g in a <==> g in b
    ensures Names(a) == Names(b) && Made(a) == Made(b)
  {
    forall g ensures g in a <==> g in b {
      assert g in a <==> g in multiset(a);
      assert g in b <==> g in multiset(b);
    }
  }
}
