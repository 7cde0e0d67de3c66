# Component registry of a game object

This project models the component registry of the Simple Component System, a
small entity/component demonstration in C++. A `GameObject` owns a list of
heap-allocated component containers. Each container carries a type tag
(`TRANSFORM`, `MESH_RENDERER`, `COLLIDER`, `SCRIPT`, `UNKNOWN`) and wraps one
component. The model covers:

- the admission rule: only scripts may occur more than once on an object;
- adding a component: append, then re-sort the list by tag, which sets the
  update order. A refused addition returns an invalid handle and changes
  nothing;
- the linear-scan lookups `HasComponent` and `GetComponent`;
- the nullable component handle;
- the destructor, which deallocates every container.

It proves the registry invariant, the contracts of these operations, and the
outcome of the demonstration's fixed sequence of twelve additions.

Layout:

- `component_types.dfy` (module `ComponentTypes`): the tag enumeration, its
  order, the admission rule, the invariant on tags, the reference function
  `AddTag` giving the tag list after an attempted addition, and lemmas about
  ordered tag sequences.
- `game_object.dfy` (module `GameObjects`): the container class, the handle,
  the scan, the sort by tag, and the `GameObject` class with its fields and
  methods.
- `demo.dfy` (module `Demo`): the demonstration loop's additions and lookups.

Modelling choices:

- Containers are objects of class `ComponentContainer`, so they have identity.
  The field `live` is true from allocation until deallocation. `Destroy`
  requires `live`, so no container can be deallocated twice.
- The component payload is an opaque type parameter `P`. Everything is keyed
  on the tag, as the source's lookup is. The source casts purely on the tag
  and never compares the tag with the payload's C++ type, so the model does
  not relate them either.
- The C++ `std::vector` of container pointers is the sequence field
  `components`. The C++ `std::sort` becomes `SortByKind`, an insertion sort
  that returns a new sequence. Its contract promises only what `std::sort`
  promises: the result is ordered by tag and is a permutation of the input.
  Nothing is said about the order among equal tags, since `std::sort` is not
  stable.
- A handle refers to the container and so to the component stored in it. The
  source's handle points at the component field inside the container.

## Model

| member | source | states |
|---|---|---|
| `ComponentTypes.IsMultiComponent` | SCS.cpp:156-166 | true exactly for `Script`; `Transform`, `Collider`, `MeshRenderer` and the fall-through `Unknown` give false |
| `ComponentTypes.Ordinal` | SCS.cpp:76-83 | each tag's enumeration value, the integer the comparator at SCS.cpp:181 compares, is one of the five values 0 to 4 |
| `ComponentTypes.Admits` | SCS.cpp:173 | an object holding given tags accepts a component of a type exactly when the type is `Script` or is not among the tags |
| `ComponentTypes.EnumerationOrder` | SCS.cpp:76-83 | the tags' values increase in declaration order: `Transform < MeshRenderer < Collider < Script < Unknown` |
| `ComponentTypes.OrdinalInjective` | SCS.cpp:76-83 | distinct tags have distinct enumeration values, so the sort comparator orders tags totally |
| `ComponentTypes.OrderedPairs` | SCS.cpp:181 | in a tag list sorted by the comparator, every tag is no smaller than every tag before it, not just its neighbour |
| `ComponentTypes.AdmitPreservesSingleInstance` | SCS.cpp:172-181 | adding one tag that the admission check lets through, in any order, keeps every single-instance type at most once |
| `ComponentTypes.OrderedInsert` | SCS.cpp:181 | placing a tag after all smaller-or-equal tags and before all larger ones keeps the sequence ordered |
| `ComponentTypes.InsertTagOrdered` | SCS.cpp:178-181 | the reference insertion `InsertTag` (append, then sort) keeps a sorted tag list sorted |
| `ComponentTypes.InsertTagCount` | SCS.cpp:178-181 | `InsertTag` adds exactly the one tag: its result is a permutation of the old tags plus the new one |
| `ComponentTypes.AddTagKeepsInvariant` | SCS.cpp:172-181 | an attempted addition, accepted or refused, keeps the tags sorted and every single-instance type at most once |
| `ComponentTypes.SingleInstanceAt` | SCS.cpp:173 | under the registry invariant, two different positions holding the same tag hold a multi-component type |
| `ComponentTypes.OrderedUnique` | SCS.cpp:181 | two tag-ordered sequences with the same tags are equal, so the list order of tags after sorting is fixed even though the sort is unstable |
| `GameObjects.ComponentContainer.constructor` | SCS.cpp:101 | a new container holds the given tag and payload and is allocated |
| `GameObjects.ComponentContainer.Destroy` | SCS.cpp:105-109 | deallocates an allocated container; deallocating it again is not permitted |
| `GameObjects.ComponentHandle.IsValid` | SCS.cpp:71-72 | a handle is valid, and converts to true, exactly when it is not null |
| `GameObjects.DefaultHandle` | SCS.cpp:63-72 | a default-constructed handle is not valid |
| `GameObjects.Find` | SCS.cpp:145 | the scan returns the first position holding the tag, or the length when no position does |
| `GameObjects.InsertByKind` | SCS.cpp:181 | inserting into an ordered list keeps it ordered and adds exactly the one container and its tag |
| `GameObjects.SortByKind` | SCS.cpp:181 | the result is ordered by tag and is a permutation of the input, both as containers and as tags |
| `GameObjects.AddFreshKeepsDistinct` | SCS.cpp:177-181 | adding a newly allocated container, in any order, keeps every container owned once |
| `GameObjects.FindSingle` | SCS.cpp:143-147 | for a single-instance type, the scan for its tag finds the one container holding it |
| `GameObjects.GameObject.constructor` | SCS.cpp:130-133 | a new object has the given name, no components, and satisfies the registry invariant |
| `GameObjects.GameObject.HasComponent` | SCS.cpp:150-153 | true iff some owned container has the tag |
| `GameObjects.GameObject.GetComponent` | SCS.cpp:143-147 | valid iff `HasComponent`; when valid it refers to the first container in list order with that tag |
| `GameObjects.GameObject.AddComponent` | SCS.cpp:170-187 | keeps the registry invariant. The handle is valid iff the tag is multi or was absent. The tag list afterwards is exactly `AddTag` of the old one: unchanged when refused, the tag inserted before the first larger tag when accepted. An accepted add holds a fresh container with the given tag and payload, adds exactly that container, and makes `HasComponent` true. For a single-instance tag, `GetComponent` then returns that handle |
| `GameObjects.GameObject.Dispose` | SCS.cpp:134-139 | every container owned beforehand is deallocated, each exactly once, and the list is released |
| `Demo.DemoSteps` | SCS.cpp:221-232 | on tags alone, each of the twelve additions is accepted or refused as its annotation says, and the tag list grows to transform, mesh renderer, collider, script, script, script |
| `Demo.Populate` | SCS.cpp:221-232 | the twelve additions to a new object give accepted, accepted, accepted, accepted, refused, refused, accepted, refused, refused, accepted, refused, refused, and leave the tags transform, mesh renderer, collider, script, script, script in list order |
| `Demo.Lookups` | SCS.cpp:237-256 | on the populated object the lookups of a script, a collider, a mesh renderer and a transform all give valid handles |
| `Demo.AddSequence` | SCS.cpp:218-256 | one pass gives the twelve outcomes above. The object then lists its six components in the order transform, mesh renderer, collider, script, script, script, and all four lookups succeed |

## Left out

- Memory.h: the allocator wrapper is a library call. Allocation is a Dafny `new`. Deallocation is `ComponentContainer.Destroy`. The null return on allocation failure and the null check in `Deallocate` are not modelled.
- Debug.h: the memory-usage polling thread is I/O, concurrency and floating point.
- `main`'s random value, console input, endless loop and background thread are left out. `Demo.AddSequence` models one pass of its body up to the lookups. It does not end with the object's destruction, because proving the heap frame for that in the same method was too costly. `GameObject.Dispose` states the destructor on its own.
- Console output is left out. This covers the constructors' messages, `PrintComponents`, `Update` and the address logs. The order in which `PrintComponents` lists components and `Update` visits them is the tag order `Kinds(components)`, which the model does state. The per-component `Update` calls only print.
- The object's float `val`, its getter and the components' padding arrays are left out; the name is kept. The demonstration's payload `Coordinates` keeps a component's two coordinates as reals, but nothing is computed from them.
- The `reinterpret_cast` in `GetComponent` and the type-index name are left out. The model keys lookups on the tag alone, as the cast does.
- GameObjects.SortByKind: stands in for `std::sort`. Its algorithm is an insertion sort, and only the ordering and permutation that `std::sort` guarantees are promised.
- Demo.AddSequence: does not destroy the object at the end (see above).
