/**
  The page-level pipeline: settle the compiler configuration (the one found on the page or
  a fixed default), fingerprint it once, clean the cache once, then take every `<script>`
  element in document order through `getContent`, `compileAndCache` and `injectCompiled`,
  turning any exception into a warning for that script alone.

  The DOM is left out: the scripts are an input sequence and the appended elements and the
  warnings are output sequences. `JSON.stringify`, `fetch` and the swc `transform` are
  parameters, and so are the clock readings of `cache.clean` and of each `cache.set`.

  The pipeline is modelled twice over, selected by a `Variant`: `Written` runs the code as it
  stands (`cache.clean` with its inverted test, `compileAndCache` letting a miss throw) and
  `Intended` runs the corrected `Store.CleanExpired` and `Gateway`.
 */
module Pipeline {
  import opened Wrappers
  import opened Hashing
  import opened Cache
  import opened Loader
  import opened Compiler

  /** The configuration used when `getConfig` yields nothing. */
  const DefaultConfig: Config := Options("es2022", "typescript", true, true, "es6")

  /**
    What `await getConfig()` settles to: a configuration, `null`/`undefined`, or a rejection,
    which stops the module at its top-level `await` before anything else happens.
   */
  datatype ConfigLoad = Loaded(config: Config) | Absent | LoadFailed

  /** `await getConfig() ?? { ...default... }`. */
  function ResolveConfig(load: ConfigLoad): Config
    requires !load.LoadFailed?
  {
    if load.Loaded? then load.config else DefaultConfig
  }

  /** The collaborators the pipeline cannot see: `JSON.stringify`, `fetch` and swc's `transform`. */
  datatype Env = Env(stringify: Config -> string, fetch: string -> Fetched, transform: Transform)

  /** A script in document order, with what `Date.now()` reads if its compilation is cached. */
  datatype Visit = Visit(script: ScriptTag, now: int)

  /** What the loop body does for one script: append an element, or warn about its `src`. */
  datatype Outcome = Injected(element: ScriptElement) | Warned(src: string)

  /** The outcomes so far, in document order, and the cache entries they leave behind. */
  datatype Progress = Progress(outcomes: seq<Outcome>, entries: seq<Entry>)

  /** Which `cache.clean` and `compileAndCache` the pipeline calls: the ones written, or the corrected ones. */
  datatype Variant = Written | Intended

  /** The eviction test `cache.clean` applies, for a cache lifetime of 30 days. */
  function CleanPolicy(variant: Variant, now: int): (policy: Policy)
    ensures policy.lifetimeDays == DefaultLifetimeDays && policy.now == now
    ensures policy.AsWritten? <==> variant == Written
  {
    match variant
    case Written => AsWritten(DefaultLifetimeDays, now)
    case Intended => Expiry(DefaultLifetimeDays, now)
  }

  /** The `compileAndCache` the pipeline calls. */
  function GatewayOf(variant: Variant, es: seq<Entry>, typescript: string, key: string, config: Config,
                     transform: Transform, now: int): Compilation
  {
    match variant
    case Written => GatewayAsWritten(es, typescript, key, config, transform, now)
    case Intended => Gateway(es, typescript, key, config, transform, now)
  }

  /** `configEtag`: the fingerprint of the serialized configuration. */
  function ConfigTag(config: Config, env: Env): (tag: string)
    ensures 7 <= |tag| <= 8
  {
    FingerprintLength(env.stringify(config));
    Fingerprint(env.stringify(config))
  }

  /** One pass of the loop body, the `try` block and its `catch`. */
  function ProcessScript(variant: Variant, es: seq<Entry>, v: Visit, tag: string, config: Config, env: Env): Progress
  {
    match GetContent(v.script, env.fetch)
    case Err(_) => Progress([Warned(v.script.src)], es)
    case Ok(src) =>
      var c := GatewayOf(variant, es, src.data, src.eTag + tag, config, env.transform, v.now);
      match c.result
      case Err(_) => Progress([Warned(v.script.src)], c.entries)
      case Ok(js) => Progress([Injected(InjectCompiled(js))], c.entries)
  }

  /** The loop over `visits`, one outcome per script. */
  function ProcessAll(variant: Variant, es: seq<Entry>, visits: seq<Visit>, tag: string, config: Config, env: Env): (p: Progress)
    ensures |p.outcomes| == |visits|
  {
    if visits == [] then Progress([], es)
    else
      var p := ProcessAll(variant, es, visits[..|visits| - 1], tag, config, env);
      var q := ProcessScript(variant, p.entries, visits[|visits| - 1], tag, config, env);
      Progress(p.outcomes + q.outcomes, q.entries)
  }

  /** The whole module: nothing at all when `getConfig` rejects, else clean once and run the loop. */
  function PipelineRun(variant: Variant, es: seq<Entry>, load: ConfigLoad, env: Env, visits: seq<Visit>,
                       cleanNow: int): Progress
  {
    if load.LoadFailed? then Progress([], es)
    else
      var config := ResolveConfig(load);
      var cleaned := Retain(es, EvictionTest(CleanPolicy(variant, cleanNow)));
      ProcessAll(variant, cleaned, visits, ConfigTag(config, env), config, env)
  }

  /** The elements appended to `document.body`, in order. */
  function Injections(os: seq<Outcome>): seq<ScriptElement>
  {
    if os == [] then []
    else Injections(os[..|os| - 1]) + (if os[|os| - 1].Injected? then [os[|os| - 1].element] else [])
  }

  /** The `src` of every script that was not transpiled, in order. */
  function Warnings(os: seq<Outcome>): seq<string>
  {
    if os == [] then []
    else Warnings(os[..|os| - 1]) + (if os[|os| - 1].Warned? then [os[|os| - 1].src] else [])
  }

  /** The module body of the transpiler, on the cache in place. */
  method Run(variant: Variant, store: Store, load: ConfigLoad, env: Env, visits: seq<Visit>, cleanNow: int)
    returns (appended: seq<ScriptElement>, warnings: seq<string>)
    requires store.Valid()
    modifies store
    ensures store.Valid()
    ensures var p := PipelineRun(variant, old(store.entries), load, env, visits, cleanNow);
      appended == Injections(p.outcomes) && warnings == Warnings(p.outcomes) && store.entries == p.entries
  {
    if load.LoadFailed? {
      return [], [];
    }
    var config := ResolveConfig(load);
    var configTag := HashCode(env.stringify(config));
    if variant == Written {
      store.Clean(DefaultLifetimeDays, cleanNow);
    } else {
      store.CleanExpired(DefaultLifetimeDays, cleanNow);
    }
    ghost var start := store.entries;
    ghost var outcomes: seq<Outcome> := [];
    appended, warnings := [], [];
    for i := 0 to |visits|
      invariant store.Valid()
      invariant ProcessAll(variant, start, visits[..i], configTag, config, env) == Progress(outcomes, store.entries)
      invariant appended == Injections(outcomes) && warnings == Warnings(outcomes)
    {
      ProcessAllStep(variant, start, visits, i, configTag, config, env);
      var outcome := ProcessOne(variant, store, visits[i], configTag, config, env);
      OutcomeListsStep(outcomes, outcome);
      if outcome.Injected? {
        appended := appended + [outcome.element];
      } else {
        warnings := warnings + [outcome.src];
      }
      outcomes := outcomes + [outcome];
    }
    assert visits[..|visits|] == visits;
  }

  /** The body of the loop for one script: the `try` block, or the warning of its `catch`. */
  method ProcessOne(variant: Variant, store: Store, v: Visit, configTag: string, config: Config, env: Env)
    returns (outcome: Outcome)
    requires store.Valid()
    modifies store
    ensures store.Valid()
    ensures Progress([outcome], store.entries) == ProcessScript(variant, old(store.entries), v, configTag, config, env)
  {
    var content := GetContent(v.script, env.fetch);
    if content.Err? {
      return Warned(v.script.src);
    }
    var compiled: Result<string, GatewayError>;
    var ran: bool;
    if variant == Written {
      compiled, ran := CompileAndCacheAsWritten(store, content.value.data, content.value.eTag + configTag,
                                          config, env.transform, v.now);
    } else {
      compiled, ran := CompileAndCache(store, content.value.data, content.value.eTag + configTag,
                                   config, env.transform, v.now);
    }
    if compiled.Err? {
      return Warned(v.script.src);
    }
    var element := InjectCompiled(compiled.value);
    outcome := Injected(element);
  }

  /** The loop invariant of `Run` carried over one more script. */
  lemma ProcessAllStep(variant: Variant, es: seq<Entry>, visits: seq<Visit>, i: nat, tag: string, config: Config, env: Env)
    requires i < |visits|
    ensures var p := ProcessAll(variant, es, visits[..i], tag, config, env);
      var q := ProcessScript(variant, p.entries, visits[i], tag, config, env);
      ProcessAll(variant, es, visits[..i + 1], tag, config, env) == Progress(p.outcomes + q.outcomes, q.entries)
  {
    assert visits[..i + 1][..i] == visits[..i];
  }

  lemma OutcomeListsStep(os: seq<Outcome>, o: Outcome)
    ensures Injections(os + [o]) == Injections(os) + (if o.Injected? then [o.element] else [])
    ensures Warnings(os + [o]) == Warnings(os) + (if o.Warned? then [o.src] else [])
  {
    assert (os + [o])[..|os|] == os;
  }

  // ----- properties of the loop -------------------------------------------------------

  /** Every script ends in exactly one appended element or exactly one warning. */
  lemma {:induction false} OutcomeCount(os: seq<Outcome>)
    ensures |Injections(os)| + |Warnings(os)| == |os|
  {
    if os != [] {
      OutcomeCount(os[..|os| - 1]);
    }
  }

  /** Running the loop over `a + b` is running it over `a`, then over `b` from where `a` left the cache. */
  lemma {:induction false} ProcessAllAppend(variant: Variant, es: seq<Entry>, a: seq<Visit>, b: seq<Visit>,
                                            tag: string, config: Config, env: Env)
    ensures var p := ProcessAll(variant, es, a, tag, config, env);
      var q := ProcessAll(variant, p.entries, b, tag, config, env);
      ProcessAll(variant, es, a + b, tag, config, env) == Progress(p.outcomes + q.outcomes, q.entries)
    decreases |b|
  {
    if b == [] {
      assert a + b == a;
    } else {
      var b' := b[..|b| - 1];
      assert (a + b)[..|a + b| - 1] == a + b';
      assert (a + b)[|a + b| - 1] == b[|b| - 1];
      ProcessAllAppend(variant, es, a, b', tag, config, env);
    }
  }

  /** The outcome of the script at position `i` depends only on that script and the cache the earlier ones left. */
  lemma OutcomeAt(variant: Variant, es: seq<Entry>, visits: seq<Visit>, tag: string, config: Config, env: Env, i: nat)
    requires i < |visits|
    ensures var before := ProcessAll(variant, es, visits[..i], tag, config, env);
      ProcessAll(variant, es, visits, tag, config, env).outcomes[i]
        == ProcessScript(variant, before.entries, visits[i], tag, config, env).outcomes[0]
  {
    assert visits[..i + 1] == visits[..i] + [visits[i]];
    assert visits == visits[..i + 1] + visits[i + 1..];
    ProcessAllAppend(variant, es, visits[..i + 1], visits[i + 1..], tag, config, env);
    assert visits[..i + 1][..i] == visits[..i];
  }

  /** A script that is not transpiled leaves the cache as it found it. */
  lemma WarnedKeepsEntries(variant: Variant, es: seq<Entry>, v: Visit, tag: string, config: Config, env: Env)
    ensures |ProcessScript(variant, es, v, tag, config, env).outcomes| == 1
    ensures ProcessScript(variant, es, v, tag, config, env).outcomes[0].Warned? ==>
      ProcessScript(variant, es, v, tag, config, env) == Progress([Warned(v.script.src)], es)
  {
    match GetContent(v.script, env.fetch)
    case Err(_) =>
    case Ok(src) =>
      if variant == Written {
        AsWrittenFailureKeepsStore(es, src.data, src.eTag + tag, config, env.transform, v.now);
      } else {
        FailureKeepsStore(es, src.data, src.eTag + tag, config, env.transform, v.now);
      }
  }

  /**
    Failure isolation: a script that throws adds one warning in its place and changes
    nothing else; the scripts after it are processed exactly as if it were not there.
   */
  lemma FailedScriptIsolated(variant: Variant, es: seq<Entry>, a: seq<Visit>, v: Visit, b: seq<Visit>,
                             tag: string, config: Config, env: Env)
    requires ProcessScript(variant, ProcessAll(variant, es, a, tag, config, env).entries, v, tag, config, env).outcomes[0].Warned?
    ensures var with := ProcessAll(variant, es, a + [v] + b, tag, config, env);
      var without := ProcessAll(variant, es, a + b, tag, config, env);
      with.outcomes == without.outcomes[..|a|] + [Warned(v.script.src)] + without.outcomes[|a|..]
      && with.entries == without.entries
  {
    var p := ProcessAll(variant, es, a, tag, config, env);
    WarnedKeepsEntries(variant, p.entries, v, tag, config, env);
    ProcessAllAppend(variant, es, a, [v], tag, config, env);
    assert ProcessAll(variant, p.entries, [v], tag, config, env) == Progress([Warned(v.script.src)], p.entries) by {
      assert [v][..0] == [];
    }
    ProcessAllAppend(variant, es, a + [v], b, tag, config, env);
    ProcessAllAppend(variant, es, a, b, tag, config, env);
  }

  /**
    An element is appended only for a script whose source was obtained, and it holds the
    compiled code the variant's gateway returned for the key `eTag + configEtag`.
   */
  lemma InjectedMeansCompiled(variant: Variant, es: seq<Entry>, v: Visit, tag: string, config: Config, env: Env)
    requires ProcessScript(variant, es, v, tag, config, env).outcomes[0].Injected?
    ensures GetContent(v.script, env.fetch).Ok?
    ensures var src := GetContent(v.script, env.fetch).value;
      var c := GatewayOf(variant, es, src.data, src.eTag + tag, config, env.transform, v.now);
      c.result.Ok? && ProcessScript(variant, es, v, tag, config, env).outcomes[0].element == InjectCompiled(c.result.value)
  {
  }

  /** `e` is keyed as `cache.set` keys the compilation of `v`'s source: `eTag + configEtag` and `v`'s clock. */
  predicate WrittenFor(e: Entry, v: Visit, tag: string, env: Env)
  {
    && GetContent(v.script, env.fetch).Ok?
    && e.key == StoredKey(GetContent(v.script, env.fetch).value.eTag + tag, v.now)
  }

  /**
    Every cache entry the loop writes is keyed by some script's `eTag` followed by the one
    `configEtag` of the run, with that script's clock reading.
   */
  lemma {:induction false} WritesCarryConfigTag(variant: Variant, es: seq<Entry>, visits: seq<Visit>, tag: string,
                                                config: Config, env: Env)
    ensures forall e: Entry :: e in ProcessAll(variant, es, visits, tag, config, env).entries && e !in es ==>
      exists j :: 0 <= j < |visits| && WrittenFor(e, visits[j], tag, env)
  {
    if visits != [] {
      var init := visits[..|visits| - 1];
      var v := visits[|visits| - 1];
      var p := ProcessAll(variant, es, init, tag, config, env);
      WritesCarryConfigTag(variant, es, init, tag, config, env);
      forall e: Entry | e in ProcessAll(variant, es, visits, tag, config, env).entries && e !in es
        ensures exists j :: 0 <= j < |visits| && WrittenFor(e, visits[j], tag, env)
      {
        if e in p.entries {
          var j :| 0 <= j < |init| && WrittenFor(e, init[j], tag, env);
          assert visits[j] == init[j];
        } else {
          var src := GetContent(v.script, env.fetch).value;
          WritesUnderKey(p.entries, src.data, src.eTag + tag, config, env.transform, v.now);
          assert WrittenFor(e, visits[|visits| - 1], tag, env);
        }
      }
    }
  }

  /** When `getConfig` rejects, nothing is cleaned, compiled, appended or warned about. */
  lemma RejectedConfigDoesNothing(variant: Variant, es: seq<Entry>, env: Env, visits: seq<Visit>, cleanNow: int)
    ensures PipelineRun(variant, es, LoadFailed, env, visits, cleanNow) == Progress([], es)
  {
  }

  /**
    Without a configuration on the page the default one is used, for the fingerprint and
    for every compilation, and the cache is cleaned once, by the variant's eviction test,
    before the first script.
   */
  lemma AbsentConfigUsesDefault(variant: Variant, es: seq<Entry>, env: Env, visits: seq<Visit>, cleanNow: int)
    ensures PipelineRun(variant, es, Absent, env, visits, cleanNow)
      == ProcessAll(variant, Retain(es, EvictionTest(CleanPolicy(variant, cleanNow))), visits,
                    Fingerprint(env.stringify(DefaultConfig)), DefaultConfig, env)
  {
  }

  /** Every script yields one outcome: appended elements and warnings add up to the number of scripts. */
  lemma EveryScriptAccountedFor(variant: Variant, es: seq<Entry>, load: ConfigLoad, env: Env, visits: seq<Visit>,
                                cleanNow: int)
    requires !load.LoadFailed?
    ensures var p := PipelineRun(variant, es, load, env, visits, cleanNow);
      |Injections(p.outcomes)| + |Warnings(p.outcomes)| == |visits|
  {
    OutcomeCount(PipelineRun(variant, es, load, env, visits, cleanNow).outcomes);
  }

  // ----- the program as written against the corrected one ------------------------------

  /** As written, a script met with an empty cache ends in a warning and writes nothing. */
  lemma ColdScriptWarns(v: Visit, tag: string, config: Config, env: Env)
    ensures ProcessScript(Written, [], v, tag, config, env) == Progress([Warned(v.script.src)], [])
  {
    match GetContent(v.script, env.fetch)
    case Err(_) =>
    case Ok(src) =>
      MissThrowsAsWritten([], src.data, src.eTag + tag, config, env.transform, v.now);
  }

  /**
    As written, the loop over an empty cache appends nothing, writes nothing and warns about
    every script, in order: every lookup misses and the miss throws.
   */
  lemma {:induction false} ColdLoopOnlyWarns(visits: seq<Visit>, tag: string, config: Config, env: Env)
    ensures var p := ProcessAll(Written, [], visits, tag, config, env);
      p.entries == [] && forall i :: 0 <= i < |visits| ==> p.outcomes[i] == Warned(visits[i].script.src)
  {
    if visits != [] {
      var init := visits[..|visits| - 1];
      var v := visits[|visits| - 1];
      ColdLoopOnlyWarns(init, tag, config, env);
      var p := ProcessAll(Written, [], init, tag, config, env);
      ColdScriptWarns(v, tag, config, env);
      var os := p.outcomes + [Warned(v.script.src)];
      assert ProcessAll(Written, [], visits, tag, config, env) == Progress(os, []);
      forall i | 0 <= i < |visits|
        ensures os[i] == Warned(visits[i].script.src)
      {
        if i < |init| {
          assert os[i] == p.outcomes[i] && visits[i] == init[i];
        }
      }
    }
  }

  /**
    As written, a page visited with an empty cache (a first visit) has every one of its
    scripts end in a warning, and leaves the cache empty for the next visit.
   */
  lemma ColdPageOnlyWarns(es: seq<Entry>, load: ConfigLoad, env: Env, visits: seq<Visit>, cleanNow: int)
    requires es == []
    requires !load.LoadFailed?
    ensures var p := PipelineRun(Written, es, load, env, visits, cleanNow);
      p.entries == [] && Injections(p.outcomes) == [] && Warnings(p.outcomes) == SourcesOf(visits)
  {
    var config := ResolveConfig(load);
    ColdLoopOnlyWarns(visits, ConfigTag(config, env), config, env);
    AllWarnedSources(ProcessAll(Written, [], visits, ConfigTag(config, env), config, env).outcomes, visits);
  }

  /** The `src` attributes of the scripts, in document order. */
  function SourcesOf(visits: seq<Visit>): (srcs: seq<string>)
    ensures |srcs| == |visits|
  {
    if visits == [] then [] else SourcesOf(visits[..|visits| - 1]) + [visits[|visits| - 1].script.src]
  }

  lemma {:induction false} AllWarnedSources(os: seq<Outcome>, visits: seq<Visit>)
    requires |os| == |visits|
    requires forall i :: 0 <= i < |visits| ==> os[i] == Warned(visits[i].script.src)
    ensures Injections(os) == [] && Warnings(os) == SourcesOf(visits)
  {
    if os != [] {
      AllWarnedSources(os[..|os| - 1], visits[..|visits| - 1]);
    }
  }

  /** Corrected, a script whose source is obtained and compiles is injected and cached, even with an empty cache. */
  lemma ColdScriptCompiles(v: Visit, tag: string, config: Config, env: Env, src: Source, js: string)
    requires GetContent(v.script, env.fetch) == Ok(src)
    requires env.transform(src.data, config) == Ok(js)
    ensures ProcessScript(Intended, [], v, tag, config, env)
      == Progress([Injected(InjectCompiled(js))], [Entry(StoredKey(src.eTag + tag, v.now), js)])
  {
    MissCompilesAndStores([], src.data, src.eTag + tag, config, env.transform, v.now);
  }

  /**
    The two variants part on the simplest page: one inline TypeScript script that compiles,
    and an empty cache. As written it ends in a warning and nothing is cached; corrected, it
    is compiled, injected and cached under its fingerprint followed by `configEtag`.
   */
  lemma VariantsPartOnFirstVisit(script: ScriptTag, config: Config, env: Env, now: int, cleanNow: int, js: string)
    requires script.mimeType == "" && script.text != ""
    requires env.transform(script.text, config) == Ok(js)
    ensures PipelineRun(Written, [], Loaded(config), env, [Visit(script, now)], cleanNow)
      == Progress([Warned(script.src)], [])
    ensures PipelineRun(Intended, [], Loaded(config), env, [Visit(script, now)], cleanNow)
      == Progress([Injected(InjectCompiled(js))],
                  [Entry(StoredKey(Fingerprint(script.text) + ConfigTag(config, env), now), js)])
  {
    var v := Visit(script, now);
    var tag := ConfigTag(config, env);
    assert [v][..0] == [];
    forall variant: Variant
      ensures PipelineRun(variant, [], Loaded(config), env, [v], cleanNow)
        == ProcessScript(variant, [], v, tag, config, env)
    {
      assert Retain([], EvictionTest(CleanPolicy(variant, cleanNow))) == [];
      assert ProcessAll(variant, [], [], tag, config, env) == Progress([], []);
    }
    ColdScriptWarns(v, tag, config, env);
    ColdScriptCompiles(v, tag, config, env, Source(script.text, Fingerprint(script.text)), js);
  }
}
