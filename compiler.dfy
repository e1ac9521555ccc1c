/**
  `compileAndCache` and `injectCompiled`: compile a TypeScript source once per cache key,
  keep the JavaScript in the cache, and wrap it into the script element that gets injected.
  The swc `transform` is a parameter: a function from the source and the configuration to
  the compiled code or the message of the exception it throws.
 */
module Compiler {
  import opened Wrappers
  import opened Cache

  /**
    The compiler configuration: the options object the pipeline builds itself, or the raw
    text that `getConfig` reads from the page and casts to `Config` without parsing it.
   */
  datatype Config =
    | Options(target: string, syntax: string, minify: bool, sourceMaps: bool, moduleType: string)
    | Text(json: string)

  /** swc's `transform(code, config).code`; `Err` carries the message of a compiler exception. */
  type Transform = (string, Config) -> Result<string, string>

  /** Why `compileAndCache` throws: `cache.get` threw, or the compiler did. */
  datatype GatewayError = Missing(cause: CacheError) | CompileFailed(message: string)

  /**
    One call of `compileAndCache`: what it returns or throws, whether it called `transform`,
    and the entries of the store afterwards.
   */
  datatype Compilation = Compilation(result: Result<string, GatewayError>, compiled: bool, entries: seq<Entry>)

  /** The branch after the cache was consulted and found nothing usable: compile, then store. */
  function CompileAndStore(es: seq<Entry>, typescript: string, key: string, config: Config,
                           transform: Transform, now: int): Compilation
  {
    match transform(typescript, config)
    case Err(m) => Compilation(Err(CompileFailed(m)), true, es)
    case Ok(js) => Compilation(Ok(js), true, SetItem(es, StoredKey(key, now), js))
  }

  /**
    `compileAndCache` as written: `cache.get` throws on a miss and nothing catches it, so
    `transform` only runs when the cached value is the empty string (`if (exists)` is false).
   */
  function GatewayAsWritten(es: seq<Entry>, typescript: string, key: string, config: Config,
                            transform: Transform, now: int): Compilation
  {
    match Lookup(es, key)
    case Err(e) => Compilation(Err(Missing(e)), false, es)
    case Ok(v) => if v != "" then Compilation(Ok(v), false, es) else CompileAndStore(es, typescript, key, config, transform, now)
  }

  /**
    `compileAndCache` as its name and its `if (exists)` fallback evidently intend it: a miss of
    the cache leads to a compilation, exactly like an empty cached value does.
   */
  function Gateway(es: seq<Entry>, typescript: string, key: string, config: Config,
                   transform: Transform, now: int): Compilation
  {
    match Lookup(es, key)
    case Ok(v) => if v != "" then Compilation(Ok(v), false, es) else CompileAndStore(es, typescript, key, config, transform, now)
    case Err(_) => CompileAndStore(es, typescript, key, config, transform, now)
  }

  /** `compileAndCache` as written, on the store in place; `now` is the clock `cache.set` reads. */
  method CompileAndCacheAsWritten(store: Store, typescript: string, key: string, config: Config,
                                  transform: Transform, now: int)
    returns (r: Result<string, GatewayError>, compiled: bool)
    requires store.Valid()
    modifies store
    ensures store.Valid()
    ensures var c := GatewayAsWritten(old(store.entries), typescript, key, config, transform, now);
      r == c.result && compiled == c.compiled && store.entries == c.entries
  {
    var cached := store.Get(key);
    if cached.Err? {
      return Err(Missing(cached.error)), false;
    }
    if cached.value != "" {
      return Ok(cached.value), false;
    }
    r, compiled := Compile(store, typescript, key, config, transform, now);
  }

  /** `compileAndCache` with a miss of the cache treated as a reason to compile. */
  method CompileAndCache(store: Store, typescript: string, key: string, config: Config,
                         transform: Transform, now: int)
    returns (r: Result<string, GatewayError>, compiled: bool)
    requires store.Valid()
    modifies store
    ensures store.Valid()
    ensures var c := Gateway(old(store.entries), typescript, key, config, transform, now);
      r == c.result && compiled == c.compiled && store.entries == c.entries
  {
    var cached := store.Get(key);
    if cached.Ok? && cached.value != "" {
      return Ok(cached.value), false;
    }
    r, compiled := Compile(store, typescript, key, config, transform, now);
  }

  /** `transform(typescript, config)` followed by `cache.set(eTag, javascript)`. */
  method Compile(store: Store, typescript: string, key: string, config: Config,
                 transform: Transform, now: int)
    returns (r: Result<string, GatewayError>, compiled: bool)
    requires store.Valid()
    modifies store
    ensures store.Valid()
    ensures var c := CompileAndStore(old(store.entries), typescript, key, config, transform, now);
      r == c.result && compiled == c.compiled && store.entries == c.entries
  {
    compiled := true;
    var output := transform(typescript, config);
    if output.Err? {
      return Err(CompileFailed(output.error)), compiled;
    }
    store.Set(key, output.value, now);
    r := Ok(output.value);
  }

  // ----- properties of compileAndCache -----------------------------------------------

  /** As written, a miss throws the error of `cache.get`, compiles nothing and writes nothing. */
  lemma MissThrowsAsWritten(es: seq<Entry>, typescript: string, key: string, config: Config,
                            transform: Transform, now: int)
    requires Lookup(es, key).Err?
    ensures var c := GatewayAsWritten(es, typescript, key, config, transform, now);
      c.result == Err(Missing(UnknownName(key))) && !c.compiled && c.entries == es
  {
  }

  /**
    As written, `transform` runs exactly when the cached value is the empty string, and the
    store changes only then.
   */
  lemma AsWrittenCompilesOnlyEmptyHits(es: seq<Entry>, typescript: string, key: string, config: Config,
                                       transform: Transform, now: int)
    ensures var c := GatewayAsWritten(es, typescript, key, config, transform, now);
      (c.compiled <==> Lookup(es, key) == Ok(""))
      && (c.entries != es ==> Lookup(es, key) == Ok(""))
  {
  }

  /**
    As written, a store with no entry for the key stays without one: every call throws,
    however often it is repeated, so nothing is ever compiled from a cold cache.
   */
  lemma ColdCacheStaysCold(es: seq<Entry>, typescript: string, key: string, config: Config,
                           transform: Transform, now: int)
    requires Lookup(es, key).Err?
    ensures var c := GatewayAsWritten(es, typescript, key, config, transform, now);
      c.result.Err? && Lookup(c.entries, key).Err?
  {
  }

  /**
    As written, a cached empty value is compiled again on every call: the result is appended
    under a new key, and since `get` returns the first match, it still finds the empty value.
   */
  lemma EmptyHitRecompiles(es: seq<Entry>, typescript: string, key: string, config: Config,
                           transform: Transform, now: int)
    requires Lookup(es, key) == Ok("")
    requires !HasKey(es, StoredKey(key, now))
    requires transform(typescript, config).Ok?
    ensures var c := GatewayAsWritten(es, typescript, key, config, transform, now);
      c.compiled
      && c.entries == es + [Entry(StoredKey(key, now), transform(typescript, config).value)]
      && Lookup(c.entries, key) == Ok("")
  {
    LookupUnchangedByAppend(es, key, Entry(StoredKey(key, now), transform(typescript, config).value));
  }

  /** The corrected gateway compiles on a miss, and a successful compilation is then found by `get`. */
  lemma MissCompilesAndStores(es: seq<Entry>, typescript: string, key: string, config: Config,
                              transform: Transform, now: int)
    requires Lookup(es, key).Err?
    ensures var c := Gateway(es, typescript, key, config, transform, now);
      var out := transform(typescript, config);
      c.compiled
      && (out.Ok? ==>
            c.result == Ok(out.value)
            && c.entries == es + [Entry(StoredKey(key, now), out.value)]
            && Lookup(c.entries, key) == Ok(out.value))
  {
    var out := transform(typescript, config);
    if out.Ok? {
      LookupAfterFirstSet(es, key, now, out.value);
    }
  }

  /** A non-empty cached value is returned as it is, by both versions, without compiling. */
  lemma HitReturnsCached(es: seq<Entry>, typescript: string, key: string, config: Config,
                         transform: Transform, now: int)
    requires Lookup(es, key).Ok? && Lookup(es, key).value != ""
    ensures var c := Gateway(es, typescript, key, config, transform, now);
      c == GatewayAsWritten(es, typescript, key, config, transform, now)
      && c.result == Ok(Lookup(es, key).value) && !c.compiled && c.entries == es
  {
  }

  /** Whenever `cache.get` does not throw, the corrected gateway behaves as the one written. */
  lemma AgreesWhenFound(es: seq<Entry>, typescript: string, key: string, config: Config,
                        transform: Transform, now: int)
    requires Lookup(es, key).Ok?
    ensures Gateway(es, typescript, key, config, transform, now) == GatewayAsWritten(es, typescript, key, config, transform, now)
  {
  }

  /** A compiler exception propagates and leaves the store as it was. */
  lemma FailureKeepsStore(es: seq<Entry>, typescript: string, key: string, config: Config,
                          transform: Transform, now: int)
    ensures var c := Gateway(es, typescript, key, config, transform, now);
      c.result.Err? <==> (c.compiled && transform(typescript, config).Err?)
    ensures var c := Gateway(es, typescript, key, config, transform, now);
      c.result.Err? ==> c.entries == es && c.result == Err(CompileFailed(transform(typescript, config).error))
  {
  }

  /**
    As written, the gateway throws exactly on a miss or on a compiler exception after an empty
    hit, and either way the store is left as it was.
   */
  lemma AsWrittenFailureKeepsStore(es: seq<Entry>, typescript: string, key: string, config: Config,
                                   transform: Transform, now: int)
    ensures var c := GatewayAsWritten(es, typescript, key, config, transform, now);
      c.result.Err? <==> (Lookup(es, key).Err? || (Lookup(es, key) == Ok("") && transform(typescript, config).Err?))
    ensures var c := GatewayAsWritten(es, typescript, key, config, transform, now);
      c.result.Err? ==> c.entries == es
  {
  }

  /**
    Compile once: after a miss compiled to a non-empty result, the next call with the same
    key, at any time and with any source, returns that result without compiling again.
   */
  lemma {:induction false} CompileOnce(es: seq<Entry>, typescript: string, key: string, config: Config,
                                       transform: Transform, now: int,
                                       typescript': string, config': Config, now': int)
    requires Lookup(es, key).Err?
    requires transform(typescript, config).Ok? && transform(typescript, config).value != ""
    ensures var first := Gateway(es, typescript, key, config, transform, now);
      var second := Gateway(first.entries, typescript', key, config', transform, now');
      second.result == first.result && !second.compiled && second.entries == first.entries
  {
    MissCompilesAndStores(es, typescript, key, config, transform, now);
  }

  /**
    What the corrected gateway returns is what the store holds for the key afterwards,
    unless an empty value was already cached under it (the first match keeps winning).
   */
  lemma ResultIsCached(es: seq<Entry>, typescript: string, key: string, config: Config,
                       transform: Transform, now: int)
    requires Lookup(es, key) != Ok("")
    ensures var c := Gateway(es, typescript, key, config, transform, now);
      c.result.Ok? ==> Lookup(c.entries, key) == Ok(c.result.value)
  {
    if Lookup(es, key).Err? {
      MissCompilesAndStores(es, typescript, key, config, transform, now);
    }
  }

  /**
    Every entry either gateway adds or rewrites is stored under the key `set` derives from the
    cache key it was given.
   */
  lemma WritesUnderKey(es: seq<Entry>, typescript: string, key: string, config: Config,
                       transform: Transform, now: int)
    ensures var c := Gateway(es, typescript, key, config, transform, now);
      forall e: Entry :: e in c.entries && e !in es ==> e.key == StoredKey(key, now)
    ensures var c := GatewayAsWritten(es, typescript, key, config, transform, now);
      forall e: Entry :: e in c.entries && e !in es ==> e.key == StoredKey(key, now)
  {
    match Lookup(es, key)
    case Ok(v) =>
      if v == "" && transform(typescript, config).Ok? {
        SetItemMembers(es, StoredKey(key, now), transform(typescript, config).value);
      }
    case Err(_) =>
      if transform(typescript, config).Ok? {
        SetItemMembers(es, StoredKey(key, now), transform(typescript, config).value);
      }
  }

  // ----- injectCompiled ---------------------------------------------------------------

  /** The text `injectCompiled` puts in front of the compiled code. */
  const CompiledBanner: string := "/* Compiled locally */ "

  /** The MIME type of an injected script. */
  const JavaScriptType: string := "application/javascript"

  /** The part of a created `<script>` element the model keeps: its text and its type. */
  datatype ScriptElement = ScriptElement(text: string, mimeType: string)

  /** `injectCompiled(js)`. */
  function InjectCompiled(js: string): (e: ScriptElement)
  {
    ScriptElement(CompiledBanner + js, JavaScriptType)
  }

  /** The compiled code inside an injected element: its text after the banner. */
  function CompiledSource(e: ScriptElement): Option<string>
  {
    if e.mimeType == JavaScriptType && CompiledBanner <= e.text then Some(e.text[|CompiledBanner|..]) else None
  }

  /** The injected element is JavaScript and its text gives back exactly the compiled code. */
  lemma InjectRoundTrip(js: string)
    ensures InjectCompiled(js).mimeType == JavaScriptType
    ensures CompiledSource(InjectCompiled(js)) == Some(js)
    ensures |InjectCompiled(js).text| == |CompiledBanner| + |js|
  {
    assert (CompiledBanner + js)[|CompiledBanner|..] == js;
  }

  /** Different compiled code gives different injected elements. */
  lemma InjectInjective(a: string, b: string)
    requires InjectCompiled(a) == InjectCompiled(b)
    ensures a == b
  {
    InjectRoundTrip(a);
    InjectRoundTrip(b);
  }
}
