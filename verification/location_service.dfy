/** A location's service: the registered filters, the lazily built handler
    chain and the request entry point that builds it at most once between
    changes to the filters. */
module Location {
  import opened Lists
  import opened FilterChain

  datatype Option<T> = None | Some(value: T)

  /** Collections.reverse: swaps the elements at mirrored positions, from
      both ends towards the middle. */
  method ReverseInPlace(a: array<Filter>)
    modifies a
    ensures a[..] == Reverse(old(a[..]))
  {
    var i, j := 0, a.Length - 1;
    while i < a.Length / 2
      invariant 0 <= i <= a.Length / 2 && j == a.Length - 1 - i
      invariant forall k :: 0 <= k < i ==> a[k] == old(a[a.Length - 1 - k]) && a[a.Length - 1 - k] == old(a[k])
      invariant forall k :: i <= k < a.Length - i ==> a[k] == old(a[k])
    {
      a[i], a[j] := a[j], a[i];
      i, j := i + 1, j - 1;
    }
  }

  /** List.sort with the comparator Integer.compare on priorities, as a
      stable insertion sort: each element moves left past the elements of
      strictly greater priority. */
  method SortInPlace(a: array<Filter>)
    modifies a
    ensures a[..] == SortByPriority(old(a[..]))
  {
    ghost var original := a[..];
    for i := 0 to a.Length
      invariant a[..i] == SortByPriority(original[..i])
      invariant a[i..] == original[i..]
    {
      ghost var prefix := original[..i + 1];
      assert prefix[..i] == original[..i] && prefix[i] == original[i] == a[i];
      InsertLast(a, i);
      assert a[..i + 1] == SortByPriority(prefix) by {
        assert prefix[..|prefix| - 1] == original[..i];
      }
      assert a[i + 1..] == original[i + 1..];
    }
    assert original[..a.Length] == original;
  }

  /** One step of the insertion sort: `a[i]` moves left past the sorted
      elements of strictly greater priority. */
  method InsertLast(a: array<Filter>, i: nat)
    requires i < a.Length
    modifies a
    ensures a[..i + 1] == Insert(old(a[..i]), old(a[i]))
    ensures a[i + 1..] == old(a[i + 1..])
  {
    ghost var sorted := a[..i];
    var key := a[i];
    var j := i;
    while j > 0 && a[j - 1].priority > key.priority
      invariant 0 <= j <= i
      invariant forall k :: 0 <= k < j ==> a[k] == sorted[k]
      invariant forall k :: j < k <= i ==> a[k] == sorted[k - 1]
      invariant forall k :: i < k < a.Length ==> a[k] == old(a[k])
      invariant forall m :: j <= m < i ==> sorted[m].priority > key.priority
    {
      a[j] := a[j - 1];
      j := j - 1;
    }
    a[j] := key;
    InsertAt(sorted, key, j);
    assert a[..i + 1] == sorted[..j] + [key] + sorted[j..];
  }

  /** Inserting at a position with only lower-or-equal priorities before it
      and only greater priorities after it is what Insert does. */
  lemma {:induction false} InsertAt(s: seq<Filter>, x: Filter, j: nat)
    requires j <= |s|
    requires j > 0 ==> s[j - 1].priority <= x.priority
    requires forall m :: j <= m < |s| ==> s[m].priority > x.priority
    ensures Insert(s, x) == s[..j] + [x] + s[j..]
  {
    if j < |s| {
      var front := s[..|s| - 1];
      InsertAt(front, x, j);
      assert s[..j] == front[..j];
      assert s[j..] == front[j..] + [s[|s| - 1]];
    }
  }

  class LocationService {
    const locationPath: string
    /** The registered filters, in registration order. */
    var filters: seq<Filter>
    /** The cached chain; None once the filters change. */
    var configuredHandler: Option<Handler>
    /** The root handler the cached chain was built around. */
    ghost var builtFrom: Handler
    /** How many times the chain has been built. */
    ghost var builds: nat

    /** The cached chain, when there is one, is the chain of the current
        filters. */
    ghost predicate Coherent()
      reads this
    {
      configuredHandler.Some? ==> configuredHandler.value == Compose(builtFrom, filters)
    }

    constructor (locationPath: string)
      ensures this.locationPath == locationPath
      ensures filters == [] && configuredHandler == None && builds == 0
      ensures Coherent()
    {
      this.locationPath := locationPath;
      filters := [];
      configuredHandler := None;
      builtFrom := Root(0);
      builds := 0;
    }

    /** Sorts and reverses `filters` in place, then lets each filter wrap
        the handler built so far. */
    static method ConfigureHandlerChain(rootHandler: Handler, filters: array<Filter>) returns (handler: Handler)
      modifies filters
      ensures filters[..] == Reverse(SortByPriority(old(filters[..])))
      ensures handler == Compose(rootHandler, old(filters[..]))
    {
      SortInPlace(filters);
      ReverseInPlace(filters);
      ghost var chain := filters[..];
      handler := rootHandler;
      for i := 0 to filters.Length
        invariant filters[..] == chain
        invariant handler == Fold(rootHandler, chain[..i])
      {
        assert chain[..i + 1][..i] == chain[..i];
        handler := Wrapped(filters[i], handler);
      }
      assert chain[..filters.Length] == chain;
    }

    /** Builds the chain from a copy of the registered filters around the
        root handler the supplier gives now (`supplied`). */
    method ConfigureHandler(supplied: Handler) returns (handler: Handler)
      ensures handler == Compose(supplied, filters)
    {
      var registered := filters;
      var copy := new Filter[|registered|](k requires 0 <= k < |registered| => registered[k]);
      assert copy[..] == registered;
      handler := ConfigureHandlerChain(supplied, copy);
    }

    method AddFilter(filterRef: Filter)
      requires Coherent()
      modifies this`filters, this`configuredHandler
      ensures filters == old(filters) + [filterRef]
      ensures configuredHandler == None
      ensures Coherent()
    {
      filters := filters + [filterRef];
      configuredHandler := None;
    }

    method RemoveFilter(filterRef: Filter)
      requires Coherent()
      modifies this`filters, this`configuredHandler
      ensures filters == RemoveFirst(old(filters), filterRef)
      ensures filterRef !in old(filters) ==> filters == old(filters)
      ensures multiset(filters) == multiset(old(filters)) - multiset{filterRef}
      ensures configuredHandler == None
      ensures Coherent()
    {
      RemoveFirstCount(filters, filterRef);
      filters := RemoveFirst(filters, filterRef);
      configuredHandler := None;
    }

    /** LocationHandler.handleRequest: reuses the cached chain, or builds,
        caches and uses a new one when there is none. `supplied` is what the
        root handler supplier returns at this moment; the result is the
        handler the request is passed to. */
    method HandleRequest(supplied: Handler) returns (invoked: Handler)
      requires Coherent()
      modifies this`configuredHandler, this`builtFrom, this`builds
      ensures Coherent()
      ensures configuredHandler == Some(invoked)
      ensures invoked == Compose(builtFrom, filters)
      ensures old(configuredHandler).Some? ==>
                invoked == old(configuredHandler).value && builtFrom == old(builtFrom) && builds == old(builds)
      ensures old(configuredHandler).None? ==>
                invoked == Compose(supplied, filters) && builtFrom == supplied && builds == old(builds) + 1
    {
      var root := configuredHandler;
      if root.None? {
        // the check repeated under the lock
        root := configuredHandler;
        if root.None? {
          var built := ConfigureHandler(supplied);
          configuredHandler := Some(built);
          builtFrom, builds := supplied, builds + 1;
          root := configuredHandler;
        }
      }
      invoked := root.value;
    }
  }

  /** Two requests with no filter change in between go to the same chain,
      and the chain is built at most once for both. */
  method DispatchTwice(service: LocationService, first: Handler, second: Handler)
    returns (h1: Handler, h2: Handler)
    requires service.Coherent()
    modifies service
    ensures h1 == h2
    ensures service.builds <= old(service.builds) + 1
    ensures service.filters == old(service.filters)
  {
    h1 := service.HandleRequest(first);
    h2 := service.HandleRequest(second);
  }

  /** A filter change between two requests makes the second request use a
      chain rebuilt from the new filter list. */
  method DispatchAfterAdd(service: LocationService, f: Filter, root: Handler)
    returns (before: Handler, after: Handler)
    requires service.Coherent()
    modifies service
    ensures after == Compose(root, old(service.filters) + [f])
    ensures service.configuredHandler == Some(after)
  {
    before := service.HandleRequest(root);
    service.AddFilter(f);
    after := service.HandleRequest(root);
  }
}
