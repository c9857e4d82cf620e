/**
 The JCache configuration adapter (`JCSConfiguration`): built from whatever
 configuration the application hands in, it copies a complete configuration
 field by field and falls back to defaults for anything else.

 Collaborators are opaque: a class, a factory or a listener configuration is
 known only by which one it is, and a Java `null` is `None`.
 */
module JCSConfiguration {
  import opened Options

  /** A `Class` object: `Object.class` or some other class. */
  datatype ClassRef = ObjectClass | NamedClass(name: string)

  /** A `Factory`: the eternal-expiry factory or one supplied by the application. */
  datatype FactoryRef = EternalExpiryPolicyFactory | UserFactory(id: nat)

  /** A `CacheEntryListenerConfiguration`, known by identity only. */
  type ListenerConfig = nat

  /**
   The configuration handed to the constructor: `null`, a plain
   `Configuration`, or a `CompleteConfiguration` with everything the copy
   reads. Its listener configurations are an iterable, possibly `null`.
   */
  datatype SourceConfiguration =
    | NullConfiguration
    | BasicConfiguration(storeByValue: bool)
    | CompleteConfiguration(storeByValue: bool, readThrough: bool, writeThrough: bool,
                            statisticsEnabled: bool, managementEnabled: bool,
                            cacheLoaderFactory: Option<FactoryRef>,
                            cacheWriterFactory: Option<FactoryRef>,
                            expiryPolicyFactory: Option<FactoryRef>,
                            cacheEntryListenerConfigurations: Option<seq<ListenerConfig>>)

  /**
   A `JCSConfiguration`. `listenerRegistry` is the concurrent map whose key
   set `getCacheEntryListenerConfigurations` returns; `initialListeners` is
   the set the constructor fills.
   */
  datatype Config = Config(keyType: Option<ClassRef>,
                           valueType: Option<ClassRef>,
                           listenerRegistry: set<ListenerConfig>,
                           storeByValue: bool,
                           readThrough: bool,
                           writeThrough: bool,
                           cacheLoaderFactory: Option<FactoryRef>,
                           cacheWriterFactory: Option<FactoryRef>,
                           expiryPolicyFactory: Option<FactoryRef>,
                           initialListeners: set<ListenerConfig>,
                           statisticsEnabled: bool,
                           managementEnabled: bool)

  /** The elements an iterable yields; a `null` iterable yields none. */
  function ListenerSet(listeners: Option<seq<ListenerConfig>>): (s: set<ListenerConfig>)
    ensures forall x :: x in s <==> listeners.Some? && x in listeners.value
  {
    if listeners.Some? then set x: ListenerConfig | x in listeners.value else {}
  }

  /** The constructor `JCSConfiguration(configuration, keyType, valueType)`. */
  function NewConfiguration(src: SourceConfiguration, keyType: Option<ClassRef>,
                            valueType: Option<ClassRef>): (c: Config)
    ensures c.keyType == keyType && c.valueType == valueType
    ensures c.listenerRegistry == {}
    ensures src.CompleteConfiguration? ==>
              && IsStoreByValue(c) == src.storeByValue
              && IsReadThrough(c) == src.readThrough
              && IsWriteThrough(c) == src.writeThrough
              && IsStatisticsEnabled(c) == src.statisticsEnabled
              && IsManagementEnabled(c) == src.managementEnabled
              && GetCacheLoaderFactory(c) == src.cacheLoaderFactory
              && GetCacheWriterFactory(c) == src.cacheWriterFactory
              && GetExpiryPolicyFactory(c) == src.expiryPolicyFactory
              && (forall x :: x in c.initialListeners <==>
                    src.cacheEntryListenerConfigurations.Some? && x in src.cacheEntryListenerConfigurations.value)
    ensures !src.CompleteConfiguration? ==>
              && IsStoreByValue(c) && !IsReadThrough(c) && !IsWriteThrough(c)
              && IsStatisticsEnabled(c) && IsManagementEnabled(c)
              && GetCacheLoaderFactory(c).None? && GetCacheWriterFactory(c).None?
              && GetExpiryPolicyFactory(c) == Some(EternalExpiryPolicyFactory)
              && c.initialListeners == {}
  {
    match src
    case CompleteConfiguration(sbv, rt, wt, stats, mgmt, loader, writer, expiry, listeners) =>
      Config(keyType, valueType, {}, sbv, rt, wt, loader, writer, expiry, ListenerSet(listeners), stats, mgmt)
    case _ =>
      // statistics and management keep their field initialisers
      Config(keyType, valueType, {}, true, false, false, None, None, Some(EternalExpiryPolicyFactory), {}, true, true)
  }

  /** `getKeyType`: `Object` stands in for a missing key type. */
  function GetKeyType(c: Config): ClassRef {
    if c.keyType.None? then ObjectClass else c.keyType.value
  }

  /** `getValueType`: `Object` stands in for a missing value type. */
  function GetValueType(c: Config): ClassRef {
    if c.valueType.None? then ObjectClass else c.valueType.value
  }

  function IsStoreByValue(c: Config): bool { c.storeByValue }
  function IsReadThrough(c: Config): bool { c.readThrough }
  function IsWriteThrough(c: Config): bool { c.writeThrough }
  function IsStatisticsEnabled(c: Config): bool { c.statisticsEnabled }
  function IsManagementEnabled(c: Config): bool { c.managementEnabled }
  function GetCacheLoaderFactory(c: Config): Option<FactoryRef> { c.cacheLoaderFactory }
  function GetCacheWriterFactory(c: Config): Option<FactoryRef> { c.cacheWriterFactory }
  function GetExpiryPolicyFactory(c: Config): Option<FactoryRef> { c.expiryPolicyFactory }

  /** `getCacheEntryListenerConfigurations`: the key set of the listener map. */
  function GetCacheEntryListenerConfigurations(c: Config): set<ListenerConfig> {
    c.listenerRegistry
  }

  // ---------------------------------------------------------------------
  // Properties

  /**
   The type getters of a constructed configuration never answer `null`:
   they give back the class passed in, or `Object` when none was.
   */
  lemma TypesAfterConstruction(src: SourceConfiguration, keyType: Option<ClassRef>, valueType: Option<ClassRef>)
    ensures GetKeyType(NewConfiguration(src, keyType, valueType)) == (if keyType.Some? then keyType.value else ObjectClass)
    ensures GetValueType(NewConfiguration(src, keyType, valueType)) == (if valueType.Some? then valueType.value else ObjectClass)
  {
  }

  /**
   The listener map is never filled by the constructor, so the listener
   getter is empty right after construction, even when the source listed
   listeners (those only reach the initial set).
   */
  lemma ListenerGetterEmptyAfterConstruction(src: SourceConfiguration, keyType: Option<ClassRef>,
                                             valueType: Option<ClassRef>)
    ensures GetCacheEntryListenerConfigurations(NewConfiguration(src, keyType, valueType)) == {}
    ensures forall x :: x in NewConfiguration(src, keyType, valueType).initialListeners <==>
              && src.CompleteConfiguration?
              && src.cacheEntryListenerConfigurations.Some?
              && x in src.cacheEntryListenerConfigurations.value
  {
  }

  /** A `JCSConfiguration` seen through the `CompleteConfiguration` interface it implements. */
  ghost function AsSource(c: Config): SourceConfiguration {
    CompleteConfiguration(IsStoreByValue(c), IsReadThrough(c), IsWriteThrough(c),
                          IsStatisticsEnabled(c), IsManagementEnabled(c),
                          GetCacheLoaderFactory(c), GetCacheWriterFactory(c), GetExpiryPolicyFactory(c),
                          Some(SetToSeq(GetCacheEntryListenerConfigurations(c))))
  }

  /** Some enumeration of a finite set, as an iterator over it would yield it. */
  ghost function SetToSeq(s: set<ListenerConfig>): (q: seq<ListenerConfig>)
    ensures forall x :: x in q <==> x in s
    decreases |s|
  {
    if s == {} then []
    else
      var x :| x in s;
      [x] + SetToSeq(s - {x})
  }

  /**
   Copying a `JCSConfiguration` into a new one keeps every setting but loses
   the initial listeners: the copy reads the listener getter, which is
   empty. Given the same type arguments the copy is otherwise identical;
   given the types read back through the getters, a `null` type comes back
   as `Object`, so the getters still agree but the stored type does not.
   */
  lemma RecopyKeepsSettingsDropsListeners(src: SourceConfiguration, keyType: Option<ClassRef>,
                                          valueType: Option<ClassRef>)
    ensures var c := NewConfiguration(src, keyType, valueType);
            NewConfiguration(AsSource(c), keyType, valueType) == c.(initialListeners := {})
    ensures var c := NewConfiguration(src, keyType, valueType);
            var c' := NewConfiguration(AsSource(c), Some(GetKeyType(c)), Some(GetValueType(c)));
            && c' == c.(initialListeners := {}, keyType := Some(GetKeyType(c)), valueType := Some(GetValueType(c)))
            && GetKeyType(c') == GetKeyType(c) && GetValueType(c') == GetValueType(c)
            && (keyType.None? ==> c'.keyType == Some(ObjectClass))
  {
    var c := NewConfiguration(src, keyType, valueType);
    var c' := NewConfiguration(AsSource(c), keyType, valueType);
    assert SetToSeq({}) == [];
    assert c'.initialListeners == {};
  }
}
