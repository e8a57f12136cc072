# Location filter chain (WildFly Undertow subsystem)

A WildFly `LocationService` serves one HTTP location. It keeps a list of
registered `UndertowFilter`s. When a request arrives it uses a cached handler
chain: the location's root handler wrapped by every filter. The chain is
built lazily. Adding or removing a filter drops the cached chain, and the
next request builds it again.

This project models that core in Dafny:

- `lists.dfy` (module `Lists`): the java.util list operations the service
  relies on. `Reverse` models `Collections.reverse`. `RemoveFirst` models
  `List.remove(Object)`, which drops the first equal element.
- `filter_chain.dfy` (module `FilterChain`): filters as `(id, priority)`
  values; handlers as `Root(id) | Wrapped(filter, inner)`, where `Wrapped`
  is what a filter's `wrap` returns. It also holds the stable sort by
  priority, the loop's fold, and `Compose`, the pure specification of
  `configureHandlerChain`, with lemmas about the chain it builds.
- `location_service.dfy` (module `Location`): the class
  `LocationService`. It has the `filters` list and the `configuredHandler`
  cache slot (`None` stands for `null`). `ConfigureHandlerChain`,
  `ConfigureHandler` and `HandleRequest` are each proved against
  `Compose`. `AddFilter` and `RemoveFilter` state the new filter list and
  empty the cache, which keeps the invariant `Coherent()`: a cached chain is
  the chain of the current filters. The in-place `List.sort` and
  `Collections.reverse` work on an array.

The chain the code builds, and the cache around it, behave as follows:

- The lowest priority ends up outermost and the highest wraps the root
  directly: the code sorts ascending, reverses, and each filter wraps the
  previous result (`ComposeLayers`, `OutermostIsLowest`).
- Equal priorities keep registration order, outside in: `List.sort` is
  stable, and the fold undoes the reverse (`ComposeLayers`,
  `StableSortUnique`).
- Every registered filter is one layer, so a duplicate is two layers
  (`ComposeLayers`).
- No filters means the root handler itself (`ComposeEmpty`).
- `removeFilter` clears the cache even when the filter is absent
  (`RemoveFilter`).
- Adding a filter and then removing it restores the chain when no equal
  filter was registered before (`AddThenRemoveRestores`). Otherwise
  `remove` drops the earlier copy, and the filter can move behind another
  filter of the same priority (`AddThenRemoveCanReorderTies`).

## Model

| member | source | states |
|---|---|---|
| `Lists.Reverse` | undertow/src/main/java/org/wildfly/extension/undertow/LocationService.java:96 | the result has the input's length, and element k is input element n-1-k |
| `Lists.IndexOf` | undertow/src/main/java/org/wildfly/extension/undertow/LocationService.java:113 | the index of the first element equal to x: it holds x and no earlier element does |
| `Lists.RemoveFirst` | undertow/src/main/java/org/wildfly/extension/undertow/LocationService.java:113 | remove(Object) leaves a list without x unchanged; otherwise it cuts out exactly the first occurrence and keeps the rest in order |
| `Lists.RemoveFirstCount` | undertow/src/main/java/org/wildfly/extension/undertow/LocationService.java:113 | removal takes away exactly one copy of x if there is one, and nothing else |
| `Lists.RemoveAppended` | undertow/src/main/java/org/wildfly/extension/undertow/LocationService.java:106-115 | add(x) followed by remove(x) restores the list when x was absent; otherwise it removes the earlier copy and keeps the appended one |
| `FilterChain.Onion` | undertow/src/main/java/org/wildfly/extension/undertow/LocationService.java:97-100 | the reference onion: its layers, outside in, are the given list followed by the inner handler's layers, around the same core |
| `FilterChain.SortByPriorityIsStable` | undertow/src/main/java/org/wildfly/extension/undertow/LocationService.java:95 | the sort gives ascending priorities, a permutation of the input (same multiset), and equal priorities in input order |
| `FilterChain.AscendingTiesDetermine` | undertow/src/main/java/org/wildfly/extension/undertow/LocationService.java:95 | two ascending lists with the same filters at every priority, in the same order, are equal |
| `FilterChain.StableSortUnique` | undertow/src/main/java/org/wildfly/extension/undertow/LocationService.java:95 | any ascending list that keeps each priority's filters in input order is the sort's result, so any stable sort (List.sort's included) gives the modelled order |
| `FilterChain.FoldIsOnion` | undertow/src/main/java/org/wildfly/extension/undertow/LocationService.java:97-100 | the wrapping loop over a list builds the onion of the reversed list: the last filter is outermost |
| `FilterChain.Compose` | undertow/src/main/java/org/wildfly/extension/undertow/LocationService.java:94-103 | sort, reverse and fold build the onion whose layers, outside in, are the filters in ascending priority around the root |
| `FilterChain.ComposeEmpty` | undertow/src/main/java/org/wildfly/extension/undertow/LocationService.java:97-102 | with no filters the composed handler is exactly the root handler |
| `FilterChain.ComposeLayers` | undertow/src/main/java/org/wildfly/extension/undertow/LocationService.java:95-100 | the chain has the root at its core and one layer per registered filter, duplicates included; the added layers ascend in priority from the outside in and keep equal priorities in registration order |
| `FilterChain.OutermostIsLowest` | undertow/src/main/java/org/wildfly/extension/undertow/LocationService.java:95-100 | with at least one filter, the outermost layer has a priority no greater than any registered filter's |
| `FilterChain.ComposeDependsOnlyOnTies` | undertow/src/main/java/org/wildfly/extension/undertow/LocationService.java:95-100 | two registration orders that agree on the order within each priority build the same chain |
| `FilterChain.SwapDistinctPriorities` | undertow/src/main/java/org/wildfly/extension/undertow/LocationService.java:95-100 | registering two filters of different priorities in either order builds the same chain |
| `FilterChain.ComposeTwo` | undertow/src/main/java/org/wildfly/extension/undertow/LocationService.java:95-100 | with two filters the lower priority is outside, and on a tie the first registered is outside; A(10) then B(5) gives B around A around the root |
| `FilterChain.AddThenRemoveRestores` | undertow/src/main/java/org/wildfly/extension/undertow/LocationService.java:106-115 | adding a filter that was not registered and then removing it restores both the list and the composed chain |
| `FilterChain.AddThenRemoveCanReorderTies` | undertow/src/main/java/org/wildfly/extension/undertow/LocationService.java:106-115 | if x is already registered ahead of y, which has x's priority, then adding x and removing x makes [y, x], whose chain differs from that of [x, y] |
| `Location.ReverseInPlace` | undertow/src/main/java/org/wildfly/extension/undertow/LocationService.java:96 | Collections.reverse on the array leaves it holding the reverse of its old contents |
| `Location.SortInPlace` | undertow/src/main/java/org/wildfly/extension/undertow/LocationService.java:95 | List.sort with the priority comparator leaves the array holding the stable ascending sort of its old contents |
| `Location.InsertLast` | undertow/src/main/java/org/wildfly/extension/undertow/LocationService.java:95 | one insertion step: element i is inserted into the prefix before it, after the last element of priority at most its own, and later elements are untouched |
| `Location.LocationService.constructor` | undertow/src/main/java/org/wildfly/extension/undertow/LocationService.java:49-61 | a new service has no filters and no cached chain |
| `Location.LocationService.ConfigureHandlerChain` | undertow/src/main/java/org/wildfly/extension/undertow/LocationService.java:94-103 | the argument list ends up sorted and then reversed, and the returned handler is the composed chain of the list as it was passed in |
| `Location.LocationService.ConfigureHandler` | undertow/src/main/java/org/wildfly/extension/undertow/LocationService.java:89-92 | builds the chain of the current filters around the root the supplier gives now, working on a copy, so the registry is left untouched |
| `Location.LocationService.AddFilter` | undertow/src/main/java/org/wildfly/extension/undertow/LocationService.java:106-109 | appends the filter at the end of the registry and empties the cache; no other field changes |
| `Location.LocationService.RemoveFilter` | undertow/src/main/java/org/wildfly/extension/undertow/LocationService.java:112-115 | removes the first equal filter, or leaves the list unchanged if there is none, and empties the cache in both cases |
| `Location.LocationService.HandleRequest` | undertow/src/main/java/org/wildfly/extension/undertow/LocationService.java:120-130 | an empty cache is filled with the chain built from the current root and filters, which is then invoked (one build); a full cache is invoked as it is, with no rebuild; afterwards the cache holds the invoked handler, which is the chain of the current filters |
| `Location.DispatchTwice` | undertow/src/main/java/org/wildfly/extension/undertow/LocationService.java:120-130 | two requests with no filter change between them invoke the same handler, and the chain is built at most once |
| `Location.DispatchAfterAdd` | undertow/src/main/java/org/wildfly/extension/undertow/LocationService.java:106-130 | after addFilter, the next request invokes a chain rebuilt from the extended filter list |

## Left out

- Service lifecycle: `start`, `stop`, `getValue` (registering the location with the host, the consumer callback, trace logging) and the plain accessors `getLocationPath` and `getLocationHandler`. These only hand the service to external collaborators.
- Concurrency: the `volatile` cache field, the `synchronized` block and the snapshot semantics of `CopyOnWriteArrayList` are modelled as sequential code. `HandleRequest` keeps the double check, but the model says nothing about interleavings. `Coherent()` is a sequential invariant only: in the Java code a build that copied the old list (line 90) can finish after a concurrent `addFilter` has cleared the cache (lines 107-108), and then stores a chain of the old list (line 126) that stays cached until the next add or remove.
- What a handler does with the `HttpServerExchange` is not modelled. `HandleRequest` returns the handler that the request is passed to.
- Exceptions are not modelled. `wrap` is the total constructor `Wrapped`, so a build that throws, and the cache staying empty after it, fall outside the model.
- The root handler supplier is a parameter: `supplied` is the value the supplier returns when `HandleRequest` runs. It is used only when the chain is built.
- `UndertowFilter` is not part of this model. A filter is an `(id, priority)` value, and equality on it stands for the equality `List.remove` uses. Priorities are unbounded integers. Java's `int` loses nothing here, because `Integer.compare` never overflows.
- `List.sort` is modelled as a stable insertion sort, not TimSort. `StableSortUnique` shows that every stable sort gives the same result.
- The other files in the repository are not part of this model: the LRA client subsystem definition, its dependency processor and its sanity test. They are management and deployment plumbing and a network-bound test.
