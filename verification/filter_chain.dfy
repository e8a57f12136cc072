/** The pure part of a location's filter chain: filters, handlers built by
    wrapping, the stable priority sort and the composition of the chain. */
module FilterChain {
  import opened Lists

  /** An UndertowFilter: `id` stands for the object's identity (the equality
      List.remove uses) and `priority` for getPriority(). */
  datatype Filter = Filter(id: int, priority: int)

  /** A request handler: an opaque handler supplied from outside, or the
      handler a filter's wrap returns around an inner handler. */
  datatype Handler = Root(id: int) | Wrapped(filter: Filter, inner: Handler)

  /** The filters wrapped around `h`, read from the outermost layer inward. */
  function Layers(h: Handler): seq<Filter>
  {
    match h
    case Root(_) => []
    case Wrapped(f, inner) => [f] + Layers(inner)
  }

  /** The unwrapped handler at the centre of `h`. */
  function Core(h: Handler): (c: Handler)
    ensures c.Root?
  {
    match h
    case Root(_) => h
    case Wrapped(_, inner) => Core(inner)
  }

  /** The onion whose layers, from the outside in, are `outsideIn`, around `h`. */
  function Onion(outsideIn: seq<Filter>, h: Handler): (r: Handler)
    ensures Layers(r) == outsideIn + Layers(h)
    ensures Core(r) == Core(h)
  {
    if outsideIn == [] then h
    else Wrapped(outsideIn[0], Onion(outsideIn[1..], h))
  }

  // ---------------------------------------------------------------------
  // Ordering by priority

  /** Priorities never decrease along `s`. */
  predicate Ascending(s: seq<Filter>)
  {
    forall i, j :: 0 <= i < j < |s| ==> s[i].priority <= s[j].priority
  }

  /** The filters of `s` whose priority is `p`, in their order in `s`. */
  function WithPriority(s: seq<Filter>, p: int): seq<Filter>
  {
    if s == [] then []
    else (if s[0].priority == p then [s[0]] else []) + WithPriority(s[1..], p)
  }

  lemma {:induction false} WithPriorityAppend(a: seq<Filter>, b: seq<Filter>, p: int)
    ensures WithPriority(a + b, p) == WithPriority(a, p) + WithPriority(b, p)
  {
    if a == [] {
      assert a + b == b;
    } else {
      assert (a + b)[0] == a[0];
      assert (a + b)[1..] == a[1..] + b;
      WithPriorityAppend(a[1..], b, p);
    }
  }

  /** `x` inserted into `s` after the last element whose priority is at most
      `x`'s, as one step of a stable insertion sort. */
  function Insert(s: seq<Filter>, x: Filter): seq<Filter>
  {
    if s == [] || s[|s| - 1].priority <= x.priority then s + [x]
    else Insert(s[..|s| - 1], x) + [s[|s| - 1]]
  }

  lemma {:induction false} InsertCount(s: seq<Filter>, x: Filter)
    ensures multiset(Insert(s, x)) == multiset(s) + multiset{x}
  {
    if s != [] && s[|s| - 1].priority > x.priority {
      var front, last := s[..|s| - 1], s[|s| - 1];
      assert s == front + [last];
      InsertCount(front, x);
    }
  }

  lemma {:induction false} InsertAscending(s: seq<Filter>, x: Filter)
    requires Ascending(s)
    ensures Ascending(Insert(s, x))
  {
    if s != [] && s[|s| - 1].priority > x.priority {
      var front, last := s[..|s| - 1], s[|s| - 1];
      InsertAscending(front, x);
      InsertCount(front, x);
      var r := Insert(front, x);
      forall y | y in r ensures y.priority <= last.priority {
        assert y in multiset(r);
        if y != x {
          assert y in front;
        }
      }
      forall i, j | 0 <= i < j < |r + [last]|
        ensures (r + [last])[i].priority <= (r + [last])[j].priority
      {
        if j == |r| {
          assert (r + [last])[i] in r;
        } else {
          assert (r + [last])[i] == r[i] && (r + [last])[j] == r[j];
        }
      }
    }
  }

  lemma {:induction false} InsertTies(s: seq<Filter>, x: Filter, p: int)
    ensures WithPriority(Insert(s, x), p) == WithPriority(s, p) + WithPriority([x], p)
  {
    if s == [] || s[|s| - 1].priority <= x.priority {
      WithPriorityAppend(s, [x], p);
    } else {
      var front, last := s[..|s| - 1], s[|s| - 1];
      assert s == front + [last];
      InsertTies(front, x, p);
      WithPriorityAppend(Insert(front, x), [last], p);
      WithPriorityAppend(front, [last], p);
    }
  }

  lemma HeadHasOwnPriority(s: seq<Filter>)
    ensures s != [] ==> s[0] in WithPriority(s, s[0].priority)
  {
  }

  /** WithPriority keeps only filters of `s` that have priority `p`. */
  lemma {:induction false} WithPriorityMembers(s: seq<Filter>, p: int, x: Filter)
    requires x in WithPriority(s, p)
    ensures x in s && x.priority == p
  {
    if s[0] != x || s[0].priority != p {
      WithPriorityMembers(s[1..], p, x);
    }
  }

  /** Two ascending sequences with the same filters at every priority, in the
      same order, are equal: a stable sort has exactly one possible result. */
  lemma {:induction false} AscendingTiesDetermine(t: seq<Filter>, u: seq<Filter>)
    requires Ascending(t) && Ascending(u)
    requires forall p :: WithPriority(t, p) == WithPriority(u, p)
    ensures t == u
  {
    HeadHasOwnPriority(t);
    HeadHasOwnPriority(u);
    if t == [] || u == [] {
    } else {
      var p, q := t[0].priority, u[0].priority;
      WithPriorityMembers(u, p, WithPriority(u, p)[0]);
      WithPriorityMembers(t, q, WithPriority(t, q)[0]);
      assert p == q;
      assert t[0] == WithPriority(t, p)[0] == WithPriority(u, p)[0] == u[0];
      forall r ensures WithPriority(t[1..], r) == WithPriority(u[1..], r) {
        var k := if p == r then 1 else 0;
        assert WithPriority(t[1..], r) == WithPriority(t, r)[k..];
        assert WithPriority(u[1..], r) == WithPriority(u, r)[k..];
      }
      AscendingTiesDetermine(t[1..], u[1..]);
      assert t == [t[0]] + t[1..] && u == [u[0]] + u[1..];
    }
  }

  /** java.util.List.sort with the comparator Integer.compare on priorities,
      as a stable insertion sort (see SortByPriorityIsStable). */
  function SortByPriority(s: seq<Filter>): seq<Filter>
  {
    if s == [] then [] else Insert(SortByPriority(s[..|s| - 1]), s[|s| - 1])
  }

  /** The sort puts priorities in ascending order, keeps every filter with
      its multiplicity, and keeps filters of equal priority in their
      original order. */
  lemma {:induction false} SortByPriorityIsStable(s: seq<Filter>)
    ensures Ascending(SortByPriority(s))
    ensures multiset(SortByPriority(s)) == multiset(s)
    ensures forall p :: WithPriority(SortByPriority(s), p) == WithPriority(s, p)
  {
    if s != [] {
      var front, last := s[..|s| - 1], s[|s| - 1];
      assert s == front + [last];
      SortByPriorityIsStable(front);
      var sorted := SortByPriority(front);
      InsertCount(sorted, last);
      InsertAscending(sorted, last);
      forall p ensures WithPriority(SortByPriority(s), p) == WithPriority(s, p) {
        InsertTies(sorted, last, p);
        WithPriorityAppend(front, [last], p);
      }
    }
  }

  lemma WithPriorityAppendAll(a: seq<Filter>, b: seq<Filter>)
    ensures forall p :: WithPriority(a + b, p) == WithPriority(a, p) + WithPriority(b, p)
  {
    forall p ensures WithPriority(a + b, p) == WithPriority(a, p) + WithPriority(b, p) {
      WithPriorityAppend(a, b, p);
    }
  }

  /** Any ascending rearrangement that keeps filters of equal priority in
      their original order is the sort's result. */
  lemma StableSortUnique(s: seq<Filter>, t: seq<Filter>)
    requires Ascending(t)
    requires forall p :: WithPriority(t, p) == WithPriority(s, p)
    ensures t == SortByPriority(s)
  {
    SortByPriorityIsStable(s);
    AscendingTiesDetermine(t, SortByPriority(s));
  }

  // ---------------------------------------------------------------------
  // Composition

  /** The handler built by the loop in configureHandlerChain: each filter of
      `s`, in order, wraps the handler built so far. */
  function Fold(h: Handler, s: seq<Filter>): Handler
  {
    if s == [] then h else Wrapped(s[|s| - 1], Fold(h, s[..|s| - 1]))
  }

  /** Folding a list puts its last element outermost. */
  lemma {:induction false} FoldIsOnion(h: Handler, s: seq<Filter>)
    ensures Fold(h, s) == Onion(Reverse(s), h)
  {
    if s != [] {
      FoldIsOnion(h, s[..|s| - 1]);
      assert Reverse(s)[1..] == Reverse(s[..|s| - 1]);
    }
  }

  /** configureHandlerChain: sort by ascending priority, reverse, then let
      each filter wrap the handler built so far, starting from `root`. The
      result is the onion whose layers, from the outside in, are the filters
      in ascending priority, equal priorities in registration order. */
  function Compose(root: Handler, filters: seq<Filter>): (h: Handler)
    ensures h == Onion(SortByPriority(filters), root)
  {
    var chain := Reverse(SortByPriority(filters));
    FoldIsOnion(root, chain);
    ReverseTwice(SortByPriority(filters));
    Fold(root, chain)
  }

  /** With no filters the composed handler is the root handler itself. */
  lemma ComposeEmpty(root: Handler)
    ensures Compose(root, []) == root
  {
  }

  /** The composed handler wraps exactly the root, with one layer per
      registered filter (duplicates included), priorities ascending from the
      outside in and equal priorities in registration order. */
  lemma ComposeLayers(root: Handler, filters: seq<Filter>)
    ensures Layers(Compose(root, filters)) == SortByPriority(filters) + Layers(root)
    ensures Core(Compose(root, filters)) == Core(root)
    ensures |Layers(Compose(root, filters))| == |filters| + |Layers(root)|
    ensures multiset(Layers(Compose(root, filters))[..|filters|]) == multiset(filters)
    ensures Ascending(Layers(Compose(root, filters))[..|filters|])
    ensures forall p :: WithPriority(Layers(Compose(root, filters))[..|filters|], p) == WithPriority(filters, p)
  {
    var sorted := SortByPriority(filters);
    SortByPriorityIsStable(filters);
    assert |sorted| == |filters| by {
      assert |multiset(sorted)| == |multiset(filters)|;
    }
    assert Layers(Compose(root, filters))[..|filters|] == sorted;
  }

  /** The outermost layer carries a lowest priority of all registered filters. */
  lemma OutermostIsLowest(root: Handler, filters: seq<Filter>)
    requires filters != []
    ensures Compose(root, filters).Wrapped?
    ensures forall f :: f in filters ==> Compose(root, filters).filter.priority <= f.priority
  {
    var sorted := SortByPriority(filters);
    SortByPriorityIsStable(filters);
    assert filters[0] in multiset(sorted);
    forall f | f in filters ensures sorted[0].priority <= f.priority {
      assert f in multiset(sorted);
      var k :| 0 <= k < |sorted| && sorted[k] == f;
    }
  }

  /** Registration order matters only between filters of equal priority:
      lists with the same filters at every priority, in the same order,
      compose to the same handler. */
  lemma ComposeDependsOnlyOnTies(root: Handler, a: seq<Filter>, b: seq<Filter>)
    requires forall p :: WithPriority(a, p) == WithPriority(b, p)
    ensures Compose(root, a) == Compose(root, b)
  {
    SortByPriorityIsStable(a);
    StableSortUnique(b, SortByPriority(a));
  }

  /** Registering two filters of different priorities in either order gives
      the same chain. */
  lemma SwapDistinctPriorities(root: Handler, s: seq<Filter>, f: Filter, g: Filter)
    requires f.priority != g.priority
    ensures Compose(root, s + [f, g]) == Compose(root, s + [g, f])
  {
    WithPriorityAppendAll(s, [f, g]);
    WithPriorityAppendAll(s, [g, f]);
    forall p ensures WithPriority([f, g], p) == WithPriority([g, f], p) {
      assert [f, g][1..] == [g] && [g, f][1..] == [f];
      assert WithPriority([f, g], p) == WithPriority([f], p) + WithPriority([g], p);
      assert WithPriority([g, f], p) == WithPriority([g], p) + WithPriority([f], p);
    }
    ComposeDependsOnlyOnTies(root, s + [f, g], s + [g, f]);
  }

  /** Two filters registered with priorities in either order: the lower
      one ends up outside, e.g. A (priority 10) then B (priority 5) gives B
      around A around the root. */
  lemma ComposeTwo(root: Handler, a: Filter, b: Filter)
    ensures b.priority < a.priority ==> Compose(root, [a, b]) == Wrapped(b, Wrapped(a, root))
    ensures a.priority <= b.priority ==> Compose(root, [a, b]) == Wrapped(a, Wrapped(b, root))
  {
    SortTwo(a, b);
    var sorted := SortByPriority([a, b]);
    assert |sorted| == 2 && sorted[1..][1..] == [];
    assert Onion(sorted[1..], root) == Wrapped(sorted[1], root);
  }

  lemma SortTwo(a: Filter, b: Filter)
    ensures SortByPriority([a, b]) == if b.priority < a.priority then [b, a] else [a, b]
  {
    assert [a, b][..1] == [a] && [a][..0] == [];
    assert SortByPriority([a]) == [a];
    assert SortByPriority([a, b]) == Insert([a], b);
  }

  /** Adding a filter that is not registered and removing it again restores
      the chain exactly. */
  lemma AddThenRemoveRestores(root: Handler, filters: seq<Filter>, f: Filter)
    requires f !in filters
    ensures RemoveFirst(filters + [f], f) == filters
    ensures Compose(root, RemoveFirst(filters + [f], f)) == Compose(root, filters)
  {
    RemoveAppended(filters, f);
  }

  /** When an equal filter is already registered, removal takes the earlier
      copy, which moves it behind another filter of the same priority. */
  lemma AddThenRemoveCanReorderTies(root: Handler, x: Filter, y: Filter)
    requires x != y && x.priority == y.priority
    ensures RemoveFirst([x, y] + [x], x) == [y, x]
    ensures Compose(root, RemoveFirst([x, y] + [x], x)) != Compose(root, [x, y])
  {
    assert ([x, y] + [x])[1..] == [y, x];
    ComposeTwo(root, y, x);
    ComposeTwo(root, x, y);
  }
}
