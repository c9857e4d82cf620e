# Eviction list, auxiliary-cache injection and JCache configuration, in Dafny

This project models three pieces of the JCS caching engine and proves properties of them.

- **The recency-ordered doubly linked list** (`DoubleLinkedList` with its
  `DoubleLinkedListNode`s). Every memory tier uses this list for LRU eviction.
  Nodes live in an arena keyed by stable handles (`NodeId`). Each node holds
  its payload and its `prev`/`next` links. The list holds `first`, `last` and
  an incrementally kept `size`. The ghost predicate `Realizes(l, o)` ties the
  links, ends and count to a sequence of handles `o`. `Valid(l)` says some
  such sequence exists, and the ghost function `Order(l)` returns it.
  `RealizesUnique` proves that the sequence is unique. `Canonical` proves the
  converse: the order and the payloads determine the whole list. Every
  operation is specified by what it does to `Order`. For `makeLast`, the four
  cases the unit tests check (first, last, alone, interior) all follow from
  its one contract. Detaching a node (`Detach`) is the removal step of
  `makeLast` and is modelled only as that step.
- **`AbstractAuxiliaryCache`**, the shared part of every auxiliary tier:
  - injection of the element serializer and the key matcher, where a `null`
    argument is ignored;
  - injection of the optional cache event logger, where `null` is accepted;
  - the two `createICacheEvent` overloads;
  - the `log*` helpers, which do nothing when no logger is set.

  Collaborators are opaque values. A Java `null` is `None`. The calls the
  `log*` helpers make on the logger are returned as a trace
  (`seq<LoggerCall>`). The logger's `createICacheEvent` calls are not in the
  trace; the event they return is represented by its arguments.
- **`JCSConfiguration`**, the JCache configuration adapter:
  - its constructor copies a complete source configuration or falls back to
    defaults;
  - `getKeyType` and `getValueType` default to `Object`;
  - the listener getter reads a map that the constructor never fills.

The list's Java implementation is not part of this model. The only evidence
for its behaviour is its unit test,
`src/test/org/apache/jcs/utils/struct/DoubleLinkedListUnitTest.java`. Beyond
what that test checks, the model assumes the following:

- `addFirst` and `addLast` insert an unattached node at an end.
- `makeLast` leaves a node with no successor in place. Any other node is
  detached and re-inserted at the tail. The test only checks the size and the
  two ends, so this relinking is the model's reconstruction.
- `getFirst` and `getLast` return nothing on an empty list. The test never
  calls them on an empty list, so this is a modelling choice.
- `size` is a count kept up to date on every change.
- `debugDumpEntries` walks the links from head to tail without changing the
  list.

The Dafny files:

| file | module |
|---|---|
| `options.dfy` | `Options`: `Option` for nullable references |
| `double_linked_list.dfy` | `DoubleLinkedList`: data model, invariant, operations |
| `double_linked_list_properties.dfy` | `DoubleLinkedListProperties`: the behaviour the unit tests check, for all lists |
| `auxiliary_cache.dfy` | `AuxiliaryCache` |
| `jcs_configuration.dfy` | `JCSConfiguration` |

## Model

| member | source | states |
|---|---|---|
| DoubleLinkedList.Empty | src/test/org/apache/jcs/utils/struct/DoubleLinkedListUnitTest.java:17 | a new list has an empty order and no payloads |
| DoubleLinkedList.AddLast | src/test/org/apache/jcs/utils/struct/DoubleLinkedListUnitTest.java:14-47 | an unattached node is appended: the new order is the old order followed by the node, and the node's payload is recorded while every other payload is kept |
| DoubleLinkedList.AddFirst | src/test/org/apache/jcs/utils/struct/DoubleLinkedListUnitTest.java:58-62 | an unattached node is prepended: the new order is the node followed by the old order, and the payloads are kept |
| DoubleLinkedList.MakeLast | src/test/org/apache/jcs/utils/struct/DoubleLinkedListUnitTest.java:50-143 | the touched node moves to the tail and the other nodes keep their order (the new order is the old order without the node, then the node), with the payloads unchanged |
| DoubleLinkedList.GetFirst | src/test/org/apache/jcs/utils/struct/DoubleLinkedListUnitTest.java:68-70 | the first element of the order, or nothing exactly when the list is empty |
| DoubleLinkedList.GetLast | src/test/org/apache/jcs/utils/struct/DoubleLinkedListUnitTest.java:26 | the last element of the order, or nothing exactly when the list is empty |
| DoubleLinkedList.Size | src/test/org/apache/jcs/utils/struct/DoubleLinkedListUnitTest.java:112 | the kept count equals the length of the order and the number of attached nodes |
| DoubleLinkedList.DebugDumpEntries | src/test/org/apache/jcs/utils/struct/DoubleLinkedListUnitTest.java:146-170 | walking the next links from the first node returns the payloads of the whole order, from head to tail |
| DoubleLinkedListProperties.AddLastOnEmpty | src/test/org/apache/jcs/utils/struct/DoubleLinkedListUnitTest.java:14-27 | after addLast on an empty list the node is both last and first, and the size is 1 |
| DoubleLinkedListProperties.AddLastOnNonEmpty | src/test/org/apache/jcs/utils/struct/DoubleLinkedListUnitTest.java:30-47 | after addLast on a non-empty list the new node is last, the first node is unchanged, and the size grows by one |
| DoubleLinkedListProperties.AddFirstTwice | src/test/org/apache/jcs/utils/struct/DoubleLinkedListUnitTest.java:61-62 | after two addFirsts the node added second is first and the node added first is right behind it |
| DoubleLinkedListProperties.MakeLastOfFirst | src/test/org/apache/jcs/utils/struct/DoubleLinkedListUnitTest.java:50-71 | makeLast on the head of a list of two or more makes it last, makes the former second node first, and keeps the size |
| DoubleLinkedListProperties.MakeLastOfLast | src/test/org/apache/jcs/utils/struct/DoubleLinkedListUnitTest.java:74-95 | makeLast on the tail returns exactly the same list: same order, links and size |
| DoubleLinkedListProperties.MakeLastOfSole | src/test/org/apache/jcs/utils/struct/DoubleLinkedListUnitTest.java:98-115 | makeLast on the only node leaves the list unchanged, with that node both first and last and size 1 |
| DoubleLinkedListProperties.MakeLastOfInterior | src/test/org/apache/jcs/utils/struct/DoubleLinkedListUnitTest.java:118-143 | makeLast on an interior node makes it last, keeps the first node and keeps the size |
| DoubleLinkedListProperties.MakeLastKeepsRelativeOrder | src/test/org/apache/jcs/utils/struct/DoubleLinkedListUnitTest.java:118-143 | for any two other nodes, one comes before the other after makeLast exactly when it did before |
| DoubleLinkedListProperties.MakeLastKeepsContents | src/test/org/apache/jcs/utils/struct/DoubleLinkedListUnitTest.java:50-143 | in every case makeLast leaves the node last and keeps the size and the set of attached nodes |
| DoubleLinkedListProperties.EntriesCoverPayloads | src/test/org/apache/jcs/utils/struct/DoubleLinkedListUnitTest.java:146-170 | the dump has one entry per attached node and contains every attached node's payload |
| DoubleLinkedListProperties.AddLastEntries | src/test/org/apache/jcs/utils/struct/DoubleLinkedListUnitTest.java:160-162 | the dump after addLast is the previous dump followed by the new payload |
| DoubleLinkedListProperties.AddFirstEntries | src/test/org/apache/jcs/utils/struct/DoubleLinkedListUnitTest.java:58-62 | the dump after addFirst is the new payload followed by the previous dump |
| DoubleLinkedListProperties.DumpAfterTwoAddLasts | src/test/org/apache/jcs/utils/struct/DoubleLinkedListUnitTest.java:146-170 | two addLasts on a new list dump both payloads, in insertion order |
| AuxiliaryCache.NewAux | src/java/org/apache/jcs/auxiliary/AbstractAuxiliaryCache.java:21-31 | a new tier has no logger, the standard serializer and the pattern key matcher, so neither of the last two is null |
| AuxiliaryCache.SetCacheEventLogger | src/java/org/apache/jcs/auxiliary/AbstractAuxiliaryCache.java:131-144 | the getter returns exactly the argument, null included, and nothing else changes |
| AuxiliaryCache.SetElementSerializer | src/java/org/apache/jcs/auxiliary/AbstractAuxiliaryCache.java:154-170 | a null argument leaves the tier unchanged; a non-null one becomes what the getter returns; nothing else changes; a non-null serializer stays non-null |
| AuxiliaryCache.SetKeyMatcher | src/java/org/apache/jcs/auxiliary/AbstractAuxiliaryCache.java:177-193 | a null argument leaves the tier unchanged; a non-null one becomes what the getter returns; nothing else changes; a non-null matcher stays non-null |
| AuxiliaryCache.InjectAllGetters | src/java/org/apache/jcs/auxiliary/AbstractAuxiliaryCache.java:131-193 | after any sequence of setter calls, the logger getter returns the last logger set (even null), and the serializer and matcher getters return the last non-null value set, or the initial one |
| AuxiliaryCache.NeverNullAfterInjections | src/java/org/apache/jcs/auxiliary/AbstractAuxiliaryCache.java:154-193 | starting from a new tier, no sequence of setter calls makes the serializer or the key matcher null |
| AuxiliaryCache.CreateICacheEventForItem | src/java/org/apache/jcs/auxiliary/AbstractAuxiliaryCache.java:40-54 | no logger gives the shared empty event; otherwise the logger's event names the tier, the extra info and the event, carries the item, and its region is the item's cache name (itself possibly null), or null when the item is null |
| AuxiliaryCache.CreateICacheEventForKey | src/java/org/apache/jcs/auxiliary/AbstractAuxiliaryCache.java:64-74 | no logger gives the shared empty event; otherwise the logger's event carries the given region, event name and key, with the tier's name and extra info |
| AuxiliaryCache.NoLoggerSharedEmptyEvent | src/java/org/apache/jcs/auxiliary/AbstractAuxiliaryCache.java:40-69 | without a logger, both overloads return the same empty event for any arguments |
| AuxiliaryCache.ItemEventNamesItsRegion | src/java/org/apache/jcs/auxiliary/AbstractAuxiliaryCache.java:40-74 | with a logger, the item overload gives the same event as the key overload called with the item's cache name, except for the payload |
| AuxiliaryCache.LogICacheEvent | src/java/org/apache/jcs/auxiliary/AbstractAuxiliaryCache.java:81-87 | without a logger the logger trace is unchanged; with one, exactly one call carrying the event is appended |
| AuxiliaryCache.LogApplicationEvent | src/java/org/apache/jcs/auxiliary/AbstractAuxiliaryCache.java:96-102 | without a logger the logger trace is unchanged; with one, exactly one call with the same arguments is appended |
| AuxiliaryCache.LogError | src/java/org/apache/jcs/auxiliary/AbstractAuxiliaryCache.java:111-117 | without a logger the logger trace is unchanged; with one, exactly one call with the same arguments is appended |
| AuxiliaryCache.LogAllEffect | src/java/org/apache/jcs/auxiliary/AbstractAuxiliaryCache.java:81-117 | any run of logging requests changes nothing without a logger; with a logger it keeps earlier calls and appends, for each request in order, the call carrying that request's arguments, addressed to that logger |
| JCSConfiguration.ListenerSet | src/java/org/apache/commons/jcs/jcache/JCSConfiguration.java:63-71 | the set holds exactly the listeners the iterable yields; a null iterable gives the empty set |
| JCSConfiguration.NewConfiguration | src/java/org/apache/commons/jcs/jcache/JCSConfiguration.java:50-81 | a complete source has its flags, factories and listeners copied verbatim; any other source (null included) gives store-by-value, no read-through or write-through, null loader and writer, eternal expiry, no initial listeners, and statistics and management on; the types are stored as given and the listener map starts empty |
| JCSConfiguration.TypesAfterConstruction | src/java/org/apache/commons/jcs/jcache/JCSConfiguration.java:83-91 | the type getters of a constructed configuration never answer null: they report the key and value types passed in, or Object for a null one |
| JCSConfiguration.ListenerGetterEmptyAfterConstruction | src/java/org/apache/commons/jcs/jcache/JCSConfiguration.java:118-121 | right after construction the listener getter is empty, while the initial set holds exactly the source's listeners |
| JCSConfiguration.RecopyKeepsSettingsDropsListeners | src/java/org/apache/commons/jcs/jcache/JCSConfiguration.java:50-121 | building a configuration from a constructed one keeps every setting but drops the initial listeners, because the copy reads the empty listener getter; with the same type arguments the copy is otherwise identical, and with the types read back through the getters the type getters still agree while a null type is now stored as Object |

## Left out

- The list's misuse errors (adding a node that is already attached, touching one that is not) are not modelled as errors. `AddFirst` and `AddLast` require an unattached node, and `MakeLast` requires an attached one.
- Concurrency is not modelled: the model is sequential.
- `debugDumpEntries` writes to a logger. The model returns the payload sequence instead of formatted text.
- Removing an arbitrary node from the list as an operation of its own is not modelled, since the unit test does not use it. `Detach` models only the removal step inside `makeLast`.
- Node handles stand in for object identity. One `NodeId` names one node for the node's whole life.
- The internals of the event logger, the serializer, the key matcher and the JCache `Factory` and `ExpiryPolicy` types are not modelled. These are foreign collaborators and appear as opaque values. An event built by a logger is represented by the arguments it was built from.
- `getEventLoggingExtraInfo` and `getAuxiliaryCacheAttributes().getName()` are supplied by the concrete tier. They are fields of `Aux` fixed at construction.
- AuxiliaryCache.CreateICacheEventForItem and AuxiliaryCache.CreateICacheEventForKey assume the tier's attributes object is non-null. With a logger set, a null attributes object makes both overloads throw a `NullPointerException` (`AbstractAuxiliaryCache.java:52`, `71`). That exception path is not modelled.
- The listener map in `JCSConfiguration` is a `ConcurrentHashMap`; its thread safety is not modelled, and it is a plain set.
- `JCSConfiguration.GetKeyType` and `JCSConfiguration.GetValueType` have no contracts of their own. They are not plain reads: each substitutes `Object` for a null stored type. `TypesAfterConstruction` and `RecopyKeepsSettingsDropsListeners` state this.
- The `JCSConfiguration` getters for store-by-value, read-through, write-through, statistics, management and the three factories are plain field reads without contracts of their own. Their behaviour is stated through `NewConfiguration` and `RecopyKeepsSettingsDropsListeners`.
- `JCSConfiguration.GetCacheEntryListenerConfigurations` (`JCSConfiguration.java:118-121`) is a plain read of the listener map without a contract of its own. Its behaviour is stated through `ListenerGetterEmptyAfterConstruction` and `RecopyKeepsSettingsDropsListeners`.
- `AuxiliaryCache.GetCacheEventLogger`, `AuxiliaryCache.GetElementSerializer` and `AuxiliaryCache.GetKeyMatcher` (`AbstractAuxiliaryCache.java:141-144`, `167-170`, `190-193`) are plain field reads without contracts of their own. Their behaviour is stated through the setters' contracts and `InjectAllGetters`.
- The lateral TCP replication layer (sender, listener, service) is not part of this model. It is sockets, threads and timing, which cannot be stated as sequential contracts.
