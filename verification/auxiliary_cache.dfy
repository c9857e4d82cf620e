/**
 The boilerplate every auxiliary tier inherits from `AbstractAuxiliaryCache`:
 injection of the element serializer, the key matcher and the optional
 cache event logger, and the event helpers that do nothing when no logger
 is configured.

 The collaborators are opaque: a serializer, a key matcher or a logger is
 known only by which one it is. A Java `null` is `None`. What a configured
 logger is asked to do is recorded as a `LoggerCall`, so "no logger, no
 effect" becomes "the trace of calls is unchanged".
 */
module AuxiliaryCache {
  import opened Options

  /** An `IElementSerializer`: the default `StandardSerializer` or an injected one. */
  datatype Serializer = StandardSerializer | CustomSerializer(id: nat)

  /** An `IKeyMatcher`: the default `KeyMatcherPatternImpl` or an injected one. */
  datatype KeyMatcher = KeyMatcherPatternImpl | CustomKeyMatcher(id: nat)

  /** An `ICacheEventLogger`, known by identity only. */
  datatype EventLogger = EventLogger(id: nat)

  /** An `ICacheElement` as far as event creation looks at it; its cache name may be `null`. */
  datatype CacheElement = CacheElement(cacheName: Option<string>, key: string, value: string)

  /** What the event carries besides its names: the element, or the key. */
  datatype EventPayload = ElementPayload(item: Option<CacheElement>) | KeyPayload(key: string)

  /**
   An `ICacheEvent`: the shared empty event handed out when no logger is
   configured, or the event a logger built from exactly these arguments.
   */
  datatype CacheEvent =
    | EmptyEvent
    | LoggerEvent(logger: EventLogger, source: string, region: Option<string>,
                  eventName: string, optionalDetails: string, payload: EventPayload)

  /** A call the configured logger receives. */
  datatype LoggerCall =
    | LoggedCacheEvent(logger: EventLogger, event: CacheEvent)
    | LoggedApplicationEvent(logger: EventLogger, source: string, eventName: string, optionalDetails: string)
    | LoggedError(logger: EventLogger, source: string, eventName: string, errorMessage: string)

  /**
   The injected part of an auxiliary cache. `auxiliaryName` is the name in
   the tier's attributes and `extraInfo` what the tier reports as
   event-logging extra info (an IP, a disk location); both come from the
   concrete tier.
   */
  datatype Aux = Aux(cacheEventLogger: Option<EventLogger>,
                     elementSerializer: Option<Serializer>,
                     keyMatcher: Option<KeyMatcher>,
                     auxiliaryName: string,
                     extraInfo: string)

  /** Both collaborators that can never be set to `null` are present. */
  predicate Injected(a: Aux) {
    a.elementSerializer.Some? && a.keyMatcher.Some?
  }

  /** A freshly constructed tier: no logger, the default serializer and key matcher. */
  function NewAux(auxiliaryName: string, extraInfo: string): (a: Aux)
    ensures Injected(a) && a.cacheEventLogger.None?
    ensures a.elementSerializer == Some(StandardSerializer)
    ensures a.keyMatcher == Some(KeyMatcherPatternImpl)
  {
    Aux(None, Some(StandardSerializer), Some(KeyMatcherPatternImpl), auxiliaryName, extraInfo)
  }

  // ---------------------------------------------------------------------
  // Injection

  /** `setCacheEventLogger`: no null guard, so `null` removes the logger. */
  function SetCacheEventLogger(a: Aux, logger: Option<EventLogger>): (r: Aux)
    ensures GetCacheEventLogger(r) == logger
    ensures r.(cacheEventLogger := a.cacheEventLogger) == a
  {
    a.(cacheEventLogger := logger)
  }

  /** `setElementSerializer`: a `null` argument is ignored. */
  function SetElementSerializer(a: Aux, s: Option<Serializer>): (r: Aux)
    ensures s.None? ==> r == a
    ensures s.Some? ==> GetElementSerializer(r) == s
    ensures r.(elementSerializer := a.elementSerializer) == a
    ensures Injected(a) ==> Injected(r)
  {
    if s.Some? then a.(elementSerializer := s) else a
  }

  /** `setKeyMatcher`: a `null` argument is ignored. */
  function SetKeyMatcher(a: Aux, m: Option<KeyMatcher>): (r: Aux)
    ensures m.None? ==> r == a
    ensures m.Some? ==> GetKeyMatcher(r) == m
    ensures r.(keyMatcher := a.keyMatcher) == a
    ensures Injected(a) ==> Injected(r)
  {
    if m.Some? then a.(keyMatcher := m) else a
  }

  function GetCacheEventLogger(a: Aux): Option<EventLogger> {
    a.cacheEventLogger
  }

  function GetElementSerializer(a: Aux): Option<Serializer> {
    a.elementSerializer
  }

  function GetKeyMatcher(a: Aux): Option<KeyMatcher> {
    a.keyMatcher
  }

  /** One call of a public setter, with its (possibly null) argument. */
  datatype Injection =
    | InjectLogger(logger: Option<EventLogger>)
    | InjectSerializer(serializer: Option<Serializer>)
    | InjectKeyMatcher(matcher: Option<KeyMatcher>)

  function Inject(a: Aux, i: Injection): Aux {
    match i
    case InjectLogger(lg) => SetCacheEventLogger(a, lg)
    case InjectSerializer(s) => SetElementSerializer(a, s)
    case InjectKeyMatcher(m) => SetKeyMatcher(a, m)
  }

  /** The setter calls applied in order, first to last. */
  function InjectAll(a: Aux, history: seq<Injection>): Aux
    decreases |history|
  {
    if history == [] then a else InjectAll(Inject(a, history[0]), history[1..])
  }

  // Reference definitions: what each getter should return after a history,
  // read off the history from its most recent call backwards.

  /** The argument of the most recent `setCacheEventLogger`, null included. */
  function LastLogger(history: seq<Injection>, initial: Option<EventLogger>): Option<EventLogger>
    decreases |history|
  {
    if history == [] then initial
    else match history[|history| - 1]
      case InjectLogger(lg) => lg
      case _ => LastLogger(history[..|history| - 1], initial)
  }

  /** The argument of the most recent non-null `setElementSerializer`. */
  function LastSerializer(history: seq<Injection>, initial: Option<Serializer>): Option<Serializer>
    decreases |history|
  {
    if history == [] then initial
    else match history[|history| - 1]
      case InjectSerializer(Some(s)) => Some(s)
      case _ => LastSerializer(history[..|history| - 1], initial)
  }

  /** The argument of the most recent non-null `setKeyMatcher`. */
  function LastKeyMatcher(history: seq<Injection>, initial: Option<KeyMatcher>): Option<KeyMatcher>
    decreases |history|
  {
    if history == [] then initial
    else match history[|history| - 1]
      case InjectKeyMatcher(Some(m)) => Some(m)
      case _ => LastKeyMatcher(history[..|history| - 1], initial)
  }

  lemma {:induction false} InjectAllSnoc(a: Aux, history: seq<Injection>, i: Injection)
    ensures InjectAll(a, history + [i]) == Inject(InjectAll(a, history), i)
    decreases |history|
  {
    if history != [] {
      assert (history + [i])[1..] == history[1..] + [i];
      InjectAllSnoc(Inject(a, history[0]), history[1..], i);
    }
  }

  /**
   After any sequence of setter calls each getter returns what its reference
   definition says: the logger last set (even null), the serializer and key
   matcher last set to a non-null value, and the tier's names untouched.
   */
  lemma {:induction false} InjectAllGetters(a: Aux, history: seq<Injection>)
    ensures GetCacheEventLogger(InjectAll(a, history)) == LastLogger(history, a.cacheEventLogger)
    ensures GetElementSerializer(InjectAll(a, history)) == LastSerializer(history, a.elementSerializer)
    ensures GetKeyMatcher(InjectAll(a, history)) == LastKeyMatcher(history, a.keyMatcher)
    ensures InjectAll(a, history).auxiliaryName == a.auxiliaryName
    ensures InjectAll(a, history).extraInfo == a.extraInfo
    decreases |history|
  {
    if history != [] {
      var front := history[..|history| - 1];
      var i := history[|history| - 1];
      assert history == front + [i];
      InjectAllSnoc(a, front, i);
      InjectAllGetters(a, front);
    }
  }

  /** Starting from a fresh tier, no sequence of setter calls makes the serializer or key matcher null. */
  lemma {:induction false} NeverNullAfterInjections(auxiliaryName: string, extraInfo: string, history: seq<Injection>)
    ensures GetElementSerializer(InjectAll(NewAux(auxiliaryName, extraInfo), history)).Some?
    ensures GetKeyMatcher(InjectAll(NewAux(auxiliaryName, extraInfo), history)).Some?
  {
    InjectedPreserved(NewAux(auxiliaryName, extraInfo), history);
  }

  lemma {:induction false} InjectedPreserved(a: Aux, history: seq<Injection>)
    requires Injected(a)
    ensures Injected(InjectAll(a, history))
    decreases |history|
  {
    if history != [] {
      InjectedPreserved(Inject(a, history[0]), history[1..]);
    }
  }

  // ---------------------------------------------------------------------
  // Events

  /** `createICacheEvent(item, eventName)`. */
  function CreateICacheEventForItem(a: Aux, item: Option<CacheElement>, eventName: string): (e: CacheEvent)
    ensures a.cacheEventLogger.None? ==> e == EmptyEvent
    ensures a.cacheEventLogger.Some? ==>
              && e.LoggerEvent?
              && e.logger == a.cacheEventLogger.value
              && e.source == a.auxiliaryName
              && e.optionalDetails == a.extraInfo
              && e.eventName == eventName
              && e.payload == ElementPayload(item)
              && (item.None? ==> e.region.None?)
              && (item.Some? ==> e.region == item.value.cacheName)
  {
    match a.cacheEventLogger
    case None => EmptyEvent
    case Some(lg) =>
      var regionName := if item.Some? then item.value.cacheName else None;
      LoggerEvent(lg, a.auxiliaryName, regionName, eventName, a.extraInfo, ElementPayload(item))
  }

  /** `createICacheEvent(regionName, key, eventName)`. */
  function CreateICacheEventForKey(a: Aux, regionName: Option<string>, key: string, eventName: string): (e: CacheEvent)
    ensures a.cacheEventLogger.None? ==> e == EmptyEvent
    ensures a.cacheEventLogger.Some? ==>
              && e.LoggerEvent?
              && e.logger == a.cacheEventLogger.value
              && e.source == a.auxiliaryName
              && e.optionalDetails == a.extraInfo
              && e.eventName == eventName
              && e.region == regionName
              && e.payload == KeyPayload(key)
  {
    match a.cacheEventLogger
    case None => EmptyEvent
    case Some(lg) => LoggerEvent(lg, a.auxiliaryName, regionName, eventName, a.extraInfo, KeyPayload(key))
  }

  /** Without a logger both overloads hand out one and the same shared empty event. */
  lemma NoLoggerSharedEmptyEvent(a: Aux, item: Option<CacheElement>, regionName: Option<string>, key: string,
                                 e1: string, e2: string)
    requires a.cacheEventLogger.None?
    ensures CreateICacheEventForItem(a, item, e1) == CreateICacheEventForKey(a, regionName, key, e2) == EmptyEvent
  {
  }

  /**
   With a logger, the element overload names the same region as the key
   overload called with the element's cache name; only the payload differs.
   */
  lemma ItemEventNamesItsRegion(a: Aux, item: CacheElement, eventName: string)
    requires a.cacheEventLogger.Some?
    ensures CreateICacheEventForKey(a, item.cacheName, item.key, eventName).LoggerEvent?
    ensures CreateICacheEventForItem(a, Some(item), eventName)
         == CreateICacheEventForKey(a, item.cacheName, item.key, eventName)
              .(payload := ElementPayload(Some(item)))
  {
  }

  /** `logICacheEvent`: forwarded to the logger, if any. */
  function LogICacheEvent(a: Aux, trace: seq<LoggerCall>, e: CacheEvent): (t: seq<LoggerCall>)
    ensures a.cacheEventLogger.None? ==> t == trace
    ensures a.cacheEventLogger.Some? ==> t == trace + [LoggedCacheEvent(a.cacheEventLogger.value, e)]
  {
    if a.cacheEventLogger.Some? then trace + [LoggedCacheEvent(a.cacheEventLogger.value, e)] else trace
  }

  /** `logApplicationEvent`: forwarded to the logger, if any. */
  function LogApplicationEvent(a: Aux, trace: seq<LoggerCall>, source: string, eventName: string,
                               optionalDetails: string): (t: seq<LoggerCall>)
    ensures a.cacheEventLogger.None? ==> t == trace
    ensures a.cacheEventLogger.Some? ==>
              t == trace + [LoggedApplicationEvent(a.cacheEventLogger.value, source, eventName, optionalDetails)]
  {
    if a.cacheEventLogger.Some? then
      trace + [LoggedApplicationEvent(a.cacheEventLogger.value, source, eventName, optionalDetails)]
    else trace
  }

  /** `logError`: forwarded to the logger, if any. */
  function LogError(a: Aux, trace: seq<LoggerCall>, source: string, eventName: string,
                    errorMessage: string): (t: seq<LoggerCall>)
    ensures a.cacheEventLogger.None? ==> t == trace
    ensures a.cacheEventLogger.Some? ==>
              t == trace + [LoggedError(a.cacheEventLogger.value, source, eventName, errorMessage)]
  {
    if a.cacheEventLogger.Some? then
      trace + [LoggedError(a.cacheEventLogger.value, source, eventName, errorMessage)]
    else trace
  }

  /** One request to one of the three logging helpers. */
  datatype LogRequest =
    | CacheEventRequest(event: CacheEvent)
    | ApplicationEventRequest(source: string, eventName: string, optionalDetails: string)
    | ErrorRequest(source: string, eventName: string, errorMessage: string)

  function Log(a: Aux, trace: seq<LoggerCall>, q: LogRequest): seq<LoggerCall> {
    match q
    case CacheEventRequest(e) => LogICacheEvent(a, trace, e)
    case ApplicationEventRequest(s, n, d) => LogApplicationEvent(a, trace, s, n, d)
    case ErrorRequest(s, n, m) => LogError(a, trace, s, n, m)
  }

  /** The call a configured logger receives for one request. */
  function CallFor(logger: EventLogger, q: LogRequest): LoggerCall {
    match q
    case CacheEventRequest(e) => LoggedCacheEvent(logger, e)
    case ApplicationEventRequest(s, n, d) => LoggedApplicationEvent(logger, s, n, d)
    case ErrorRequest(s, n, m) => LoggedError(logger, s, n, m)
  }

  function LogAll(a: Aux, trace: seq<LoggerCall>, qs: seq<LogRequest>): seq<LoggerCall>
    decreases |qs|
  {
    if qs == [] then trace else LogAll(a, Log(a, trace, qs[0]), qs[1..])
  }

  /**
   Any run of logging requests reaches the logger in full when there is
   one (earlier calls kept, then for each request in turn the call carrying
   its arguments, sent to that logger) and changes nothing when there is none.
   */
  lemma {:induction false} LogAllEffect(a: Aux, trace: seq<LoggerCall>, qs: seq<LogRequest>)
    ensures a.cacheEventLogger.None? ==> LogAll(a, trace, qs) == trace
    ensures a.cacheEventLogger.Some? ==> |LogAll(a, trace, qs)| == |trace| + |qs|
    ensures LogAll(a, trace, qs)[..|trace|] == trace
    ensures forall k :: |trace| <= k < |LogAll(a, trace, qs)| ==>
              LogAll(a, trace, qs)[k].logger == a.cacheEventLogger.value
    ensures a.cacheEventLogger.Some? ==>
              forall j :: 0 <= j < |qs| ==>
                LogAll(a, trace, qs)[|trace| + j] == CallFor(a.cacheEventLogger.value, qs[j])
    decreases |qs|
  {
    if qs != [] {
      var t1 := Log(a, trace, qs[0]);
      LogAllEffect(a, t1, qs[1..]);
      if a.cacheEventLogger.Some? {
        assert |t1| == |trace| + 1 && t1[..|trace|] == trace;
        assert t1[|trace|].logger == a.cacheEventLogger.value;
        var t := LogAll(a, trace, qs);
        assert t[..|trace|] == t[..|t1|][..|trace|];
      }
    }
  }
}
