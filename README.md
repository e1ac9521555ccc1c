# typescript-script compile cache, modelled in Dafny

typescript-script compiles the TypeScript `<script>` elements of a web page in the
browser. It keeps the compiled JavaScript in a small cache on top of `localStorage`, then
injects the result back into the page. This project models its core:

- `hashCode` (module `Hashing`, `fingerprint.dfy`) fingerprints script sources and the
  compiler configuration. It is modelled on UTF-16 code units with explicit signed 32-bit
  wrap-around, radix-32 rendering and `padStart`.
- The `cache` object (module `Cache`, `cache.dfy`) is a class `Store` whose field is the
  sequence of `localStorage` entries in enumeration order. Its `set`, `get` and `clean` are
  methods; `get` and `clean` keep their scanning loops.
- `getContent` and `allowedMimeTypes` (module `Loader`, `loader.dfy`) validate the MIME
  type, pick the source text and choose the ETag.
- `compileAndCache` and `injectCompiled` (module `Compiler`, `compiler.dfy`) do compile-once
  over the cache. The swc `transform` is an abstract function.
- The module body of `transpiler.ts` (module `Pipeline`, `pipeline.dfy`) resolves the
  configuration, fingerprints it once and cleans once. It then handles every script in
  document order and isolates the failures of each one. It is modelled for two variants:
  `Written` calls `clean` and `compileAndCache` as they stand, and `Intended` calls the
  corrected ones (see Findings). Every structural property of the loop is proved for both;
  the lemmas about a cold cache are stated for the variant each one is about.
- The JavaScript built-ins these rely on (module `JsString`, `js_string.dfy`): `includes`,
  `split('__')[1]`, `parseInt`, `Number#toString(radix)`, `padStart` and `charCodeAt`.
- `wrappers.dfy` holds `Option` and `Result`.

Parameters stand for the world outside the code:
- `Date.now()` is a `now` argument.
- `fetch` is a function from URLs to responses.
- `JSON.stringify` and swc's `transform` are functions.
- The outcome of `getConfig` is an input.
- The DOM is a sequence of scripts in and sequences of appended elements and warnings out.

Where the documentation and the code disagree, the model follows the code:
- The doc comment of `hashCode` promises seven characters from 0-9 and a-z. The code
  renders in radix 32, so the digits are 0-9 and a-v (`Hashing.RenderAlphabet`).
- The comment's seven characters become eight when the hash is at most -2^30, because
  `padStart` does not count the sign separately (`Hashing.RenderLength`).
- `padStart` pads in front of the minus sign: the hash -1 renders as `00000-1`.
- The doc comment of `clean` says it removes entries older than the lifetime. The code
  removes the younger ones, counting the lifetime in seconds against a clock in
  milliseconds. See Findings.

## Model

| member | source | states |
|---|---|---|
| JsString.SecondField | definitions.ts:34 | `split('__')[1]`: the text after the first `__` up to the next one, or nothing when there is no `__`; `Cache.StoredKeyTimestamp` states what it yields on a key `set` wrote |
| JsString.ParseInt | definitions.ts:34 | `parseInt` with no radix: leading white space skipped, an optional '+' or '-', then either `0x`/`0X` and the longest run of hexadecimal digits or the longest run of decimal digits, `NaN` (None) without a digit; `JsString.ParseIntOfNumberToString` states its round trip |
| JsString.NumberToString | definitions.ts:13 | `Number#toString(radix)` on integers: '-' before the digits of the magnitude; `JsString.ValueOfNatToRadix` and `JsString.ParseIntOfNumberToString` state what the digits mean |
| JsString.Includes | definitions.ts:19 | `entry.includes(needle)`: the needle occurs at some position of the key; `JsString.IndexOf` finds it exactly when this holds |
| JsString.IndexOf | definitions.ts:34 | the leftmost position where the separator occurs, found exactly when the string contains it, with no occurrence earlier |
| JsString.ParseIntOfNumberToString | definitions.ts:34 | `parseInt` of the decimal rendering of any integer gives back that integer |
| JsString.PadStart | definitions.ts:86 | the result has length max(width, \|s\|), ends with `s` and holds only the fill character before it |
| JsString.CodeUnitsOf | definitions.ts:82 | a character below 2^16 is its own code unit; any other is a high surrogate in [0xD800, 0xDC00) followed by a low one in [0xDC00, 0xE000) that together spell the character back |
| JsString.CodeUnits | definitions.ts:81-82 | each character gives one or two UTF-16 code units, each below 2^16 |
| JsString.BmpCodeUnits | definitions.ts:81-82 | a string of characters below 2^16 has one code unit per character, and `charCodeAt(i)` is the code of character i |
| JsString.NatToRadix | definitions.ts:86 | at least one digit, every digit valid in the radix and written as 0-9 or a lower-case letter |
| JsString.ValueOfNatToRadix | definitions.ts:86 | the digits `toString(radix)` writes spell back the number |
| Hashing.Fingerprint | definitions.ts:78-87 | `hashCode` as a function of the string; `Hashing.HashCode` runs the loop against it, and `Hashing.FingerprintLength`, `Hashing.RenderAlphabet` and `Hashing.HashIsWrappedPolynomial` state its properties |
| Hashing.ShiftLeft5 | definitions.ts:83 | `hash << 5`: operand and result truncated to signed 32 bits; `Hashing.StepIsWrappedAffine` states what it contributes to a step |
| Hashing.Step | definitions.ts:83-84 | one loop iteration, always a signed 32-bit value; `Hashing.StepIsWrappedAffine` proves it is 31·hash + chr wrapped |
| Hashing.HashUnits | definitions.ts:79-85 | the accumulator after the loop over the code units, starting from 0, always a signed 32-bit value; `Hashing.HashIsWrappedPolynomial` relates it to the base-31 polynomial |
| Hashing.Render | definitions.ts:86 | `hash.toString(32).padStart(7, '0')`; `Hashing.RenderLength` and `Hashing.RenderAlphabet` state its length and alphabet |
| Hashing.ToInt32 | definitions.ts:84 | `hash \|= 0` gives a signed 32-bit value congruent to its operand modulo 2^32 |
| Hashing.HashCode | definitions.ts:78-87 | the loop, including the early return for the empty string, returns the fingerprint of the string, of length 7 or 8 |
| Hashing.StepIsWrappedAffine | definitions.ts:83-84 | one step `((hash << 5) - hash) + chr; hash \|= 0` equals 31·hash + chr wrapped to signed 32 bits |
| Hashing.HashStaysInt32 | definitions.ts:81-85 | after each step the accumulator is 31·previous + code unit, wrapped, so it stays in [-2^31, 2^31) |
| Hashing.HashIsWrappedPolynomial | definitions.ts:81-85 | the final hash is the polynomial of the code units in base 31, wrapped to 32 bits once |
| Hashing.DigitCount | definitions.ts:86 | a number has at most k digits in a radix exactly when it is below radix^k |
| Hashing.MagnitudeDigits | definitions.ts:86 | the magnitude of a 32-bit hash has at most seven radix-32 digits, and exactly seven from 2^30 on |
| Hashing.RenderLength | definitions.ts:86 | the rendered hash has 7 or 8 characters, and 8 exactly when the hash is at most -2^30 |
| Hashing.RenderAlphabet | definitions.ts:76-86 | the rendering uses only 0-9, a-v and '-', and contains '-' exactly when the hash is negative |
| Hashing.FingerprintLength | definitions.ts:80-86 | every output of `hashCode` has length at least 7 and at most 8 |
| Hashing.FingerprintOfEmpty | definitions.ts:80 | `hashCode("")` is `"0000000"` |
| Hashing.RenderPadsBeforeSign | definitions.ts:86 | the hash -1 renders as `"00000-1"`, padded in front of the sign |
| Cache.Needle | definitions.ts:19 | the text `get(name)` searches keys for, `ts-script-tag::<name>`; `Cache.StoredKeyMatches` states that the keys `set` writes contain it |
| Cache.StoredKey | definitions.ts:13 | the key `set(name)` writes at time `now`, `ts-script-tag::<name>__<now>`; `Cache.StoredKeyTimestamp` and `Cache.StoredKeyMatches` state what `clean` and `get` read from it |
| Cache.Lookup | definitions.ts:17-24 | `get` as a function of the entries: the value of the first matching key, or the `Unkwon name` error; `Cache.Store.Get` runs the loop against it |
| Cache.ParseTimestamp | definitions.ts:34 | `parseInt(entry.split('__')[1])`, `NaN` being None; `Cache.StoredKeyTimestamp` and `Cache.UnparsableKeysKept` state its cases |
| Cache.Evicts | definitions.ts:35 | the test `clean` applies to one key, as written (`AsWritten`) or as documented (`Expiry`), false for a `NaN` timestamp; stated by `Cache.AsWrittenEvictsYoungEntries`, `Cache.ExpiryEvictsOldEntries` and `Cache.UnparsableKeysKept` |
| Cache.RemoveItem | definitions.ts:36 | `removeItem`; `Cache.RemoveItemKeepsOthers` states what it keeps |
| Cache.Retain | definitions.ts:33-38 | the entries `clean`'s loop leaves, in order; `Cache.RetainMembers` states that exactly the unselected ones are kept, `Cache.RetainUnique` that keys stay unique |
| Cache.SetItem | definitions.ts:13 | `setItem` makes the pair present, appends it when the key is new and keeps the length when the key is present |
| Cache.SetItemMembers | definitions.ts:13 | `setItem` leaves every entry with another key as it was, and the only entry it can add is the new pair |
| Cache.RemoveItemKeepsOthers | definitions.ts:36 | `removeItem` keeps exactly the entries with another key |
| Cache.FirstMatch | definitions.ts:18-21 | the first entry in enumeration order whose key contains the needle, or none when no key contains it |
| Cache.RetainMembers | definitions.ts:33-38 | a cleaning pass keeps exactly the entries whose key the test does not select, and no new ones |
| Cache.Store.Set | definitions.ts:12-14 | `set` writes the data under `ts-script-tag::<name>__<now>`, keeps keys unique and changes no other entry |
| Cache.Store.Get | definitions.ts:17-24 | `get` returns the value of the first key containing `ts-script-tag::<name>`, and throws exactly when no key contains it |
| Cache.Store.RemoveWhere | definitions.ts:33-38 | the loop over a snapshot of the keys, removing the current one when the test holds, leaves exactly the retained entries in order |
| Cache.Store.Clean | definitions.ts:30-39 | `clean` as written keeps exactly the entries its test `timestamp + lifetime*24*3600 > now` does not select |
| Cache.Store.CleanExpired | definitions.ts:26-29 | the documented cleaning pass keeps exactly the entries not older than the lifetime in milliseconds |
| Cache.SetItemAt | definitions.ts:13 | on a store with unique keys, `setItem` with a present key replaces the value at that key's position and leaves every other position as it was |
| Cache.SetItemUnique | definitions.ts:13 | `setItem` keeps the keys of the store unique |
| Cache.RetainUnique | definitions.ts:33-38 | a cleaning pass keeps the keys of the store unique |
| Cache.StoredKeyTimestamp | definitions.ts:34 | for a name without '_', the number `clean` parses from a key `set` wrote is the write time |
| Cache.StoredKeyMatches | definitions.ts:19 | the key `set(name)` writes contains the needle `get(name)` searches for |
| Cache.LookupAfterSetSucceeds | definitions.ts:12-24 | after `set(name, v)`, `get(name)` no longer throws |
| Cache.LookupAfterFirstSet | definitions.ts:12-24 | on a store where `get(name)` throws, `set(name, v)` appends one entry and `get(name)` then returns `v` |
| Cache.LookupUnchangedByAppend | definitions.ts:17-24 | an entry enumerated after a key `get(name)` already finds does not change what `get` returns |
| Cache.LookupMatchesLongerName | definitions.ts:19 | `get("a")` returns the value stored by `set("ab", v)`, because the match is by substring |
| Cache.AsWrittenEvictsYoungEntries | definitions.ts:35-36 | for a name without '_', `clean` as written removes an entry exactly when it is younger than the lifetime counted in seconds |
| Cache.ExpiryEvictsOldEntries | definitions.ts:26-29 | for a name without '_', the documented test removes an entry exactly when it is older than the lifetime in milliseconds |
| Cache.UnparsableKeysKept | definitions.ts:34-35 | a key whose timestamp is `NaN` is never removed |
| Cache.CleanAsWrittenIsInverted | definitions.ts:26-36 | for a name without '_' and the default 30 days, `clean` as written drops a just-written entry and keeps a 31-day-old one; the documented test does the reverse |
| Loader.Allowed | definitions.ts:48-51 | `allowedMimeTypes.includes(t)`: an exact match with one of the four TypeScript MIME types of definitions.ts:6; `Loader.ContentTypeMatchedExactly` states that parameters or a missing header are rejected |
| Loader.GetContent | definitions.ts:47-54 | `getContent`: the script type check, then the inline text with its fingerprint, else the fetched body with its ETag or fingerprint, each rejection an error; the lemmas below state its cases |
| Loader.ScriptTypeChecked | definitions.ts:48 | `getContent` rejects the script itself exactly when its type is non-empty and not in `allowedMimeTypes` |
| Loader.InlineSource | definitions.ts:49 | non-empty inline text of an acceptable script is returned with `eTag = hashCode(text)`, whatever the network would answer, and that tag has 7 or 8 characters |
| Loader.RemoteSource | definitions.ts:50-53 | without inline text, the fetched body is accepted exactly when the response's Content-Type is allowed; the tag is the ETag header, or else `hashCode(body)` |
| Loader.AcceptedSourcesAreTypeScript | definitions.ts:48-53 | every accepted source passed the script type check and, when fetched, came with an allowed Content-Type |
| Loader.ContentTypeMatchedExactly | definitions.ts:51 | a Content-Type with a charset parameter, or no Content-Type at all, is rejected; a bare `text/typescript` is accepted |
| Compiler.CompileAndStore | definitions.ts:67-70 | `transform` then `cache.set`: a compiler exception writes nothing; `Compiler.FailureKeepsStore` and `Compiler.MissCompilesAndStores` state its cases |
| Compiler.GatewayAsWritten | definitions.ts:63-71 | `compileAndCache` as written, on the entries: a miss throws, a non-empty hit is returned, an empty hit is compiled and stored; stated by the `AsWritten` lemmas below |
| Compiler.Gateway | definitions.ts:63-71 | the corrected `compileAndCache`: a miss or an empty hit is compiled and stored, a non-empty hit is returned; stated by the lemmas below |
| Compiler.CompileAndCacheAsWritten | definitions.ts:63-71 | `compileAndCache` as written, on the store in place: it returns, compiles and writes what `GatewayAsWritten` says |
| Compiler.CompileAndCache | definitions.ts:63-71 | the corrected `compileAndCache` on the store in place: it returns, compiles and writes what `Gateway` says |
| Compiler.Compile | definitions.ts:67-70 | `transform` followed by `cache.set(eTag, javascript)`; a compiler exception writes nothing |
| Compiler.MissThrowsAsWritten | definitions.ts:64 | as written, a miss throws the `Unkwon name` error, calls no `transform` and leaves the store unchanged |
| Compiler.AsWrittenCompilesOnlyEmptyHits | definitions.ts:64-68 | as written, `transform` runs, and the store changes, only when the cached value is the empty string |
| Compiler.ColdCacheStaysCold | definitions.ts:63-71 | as written, a key the cache does not hold stays missing after the call, so it is never compiled |
| Compiler.HitReturnsCached | definitions.ts:64-65 | a non-empty cached value is returned by both versions without calling `transform` or writing |
| Compiler.AgreesWhenFound | definitions.ts:63-71 | when `cache.get` does not throw, the corrected gateway equals the one written |
| Compiler.EmptyHitRecompiles | definitions.ts:63-71 | as written, a cached empty value is compiled again, the result is appended under a new key, and `get` still returns the empty value |
| Compiler.MissCompilesAndStores | definitions.ts:63-71 | the corrected gateway compiles on a miss, appends the result under `set`'s key, and `get` then finds it |
| Compiler.AsWrittenFailureKeepsStore | definitions.ts:63-68 | as written, the gateway throws exactly on a miss or when `transform` throws after an empty hit, and then the store is unchanged |
| Compiler.FailureKeepsStore | definitions.ts:67-68 | the corrected gateway throws exactly when it compiled and `transform` threw, and then the store is unchanged |
| Compiler.CompileOnce | definitions.ts:63-71 | after a miss compiled to non-empty code, a second call with the same key returns that code without compiling |
| Compiler.ResultIsCached | definitions.ts:63-71 | unless an empty value was cached under the key, what the corrected gateway returns is what `get` finds afterwards |
| Compiler.WritesUnderKey | definitions.ts:68 | for both versions, every entry the gateway adds or rewrites has the key `set` derives from the cache key |
| Compiler.InjectCompiled | definitions.ts:95-100 | `injectCompiled`: a script element of type `application/javascript` whose text is the banner followed by the code; `Compiler.InjectRoundTrip` and `Compiler.InjectInjective` state its properties |
| Compiler.InjectRoundTrip | definitions.ts:95-100 | the injected element has type `application/javascript` and its text after the banner is exactly the compiled code |
| Compiler.InjectInjective | definitions.ts:95-100 | different compiled code gives different injected elements |
| Pipeline.ResolveConfig | transpiler.ts:5-17 | `await getConfig() ?? default`: the configuration found, or the default one (es2022, typescript, minify, sourceMaps, es6) |
| Pipeline.ConfigTag | transpiler.ts:19 | `configEtag = hashCode(JSON.stringify(config))`, a fingerprint of 7 or 8 characters |
| Pipeline.CleanPolicy | transpiler.ts:21 | `cache.clean()` with its default lifetime of 30 days, at the clean's clock reading; the test as written exactly for the `Written` variant |
| Pipeline.GatewayOf | transpiler.ts:26 | the `compileAndCache` the variant calls: `Compiler.GatewayAsWritten` for `Written`, `Compiler.Gateway` for `Intended` |
| Pipeline.ProcessScript | transpiler.ts:24-32 | one pass of the loop body: `getContent`, the variant's gateway with key `eTag + configEtag`, then `injectCompiled`, any exception becoming a warning for the script's `src`; stated by the lemmas below |
| Pipeline.PipelineRun | transpiler.ts:3-33 | the module body as a function: nothing if `getConfig` rejects, else one clean with the variant's test and then the loop; stated by the lemmas below |
| Pipeline.Injections | transpiler.ts:28 | the elements `appendChild` adds, in document order; `Pipeline.OutcomeCount` and `Pipeline.ColdPageOnlyWarns` state how many and when none |
| Pipeline.Warnings | transpiler.ts:31 | the `src` of each script `console.warn` reports, in document order; `Pipeline.OutcomeCount` and `Pipeline.ColdPageOnlyWarns` state how many and which |
| Pipeline.ProcessOne | transpiler.ts:24-32 | for either variant, one pass of the `try` block (calling `CompileAndCacheAsWritten` or `CompileAndCache`), or the warning of its `catch`, changes the cache and yields the outcome `ProcessScript` says |
| Pipeline.Run | transpiler.ts:3-33 | for either variant, the module body (calling `Store.Clean` or `Store.CleanExpired`) appends, warns and leaves the cache as `PipelineRun` says: nothing at all if `getConfig` rejects, else one clean and then the loop |
| Pipeline.ProcessAll | transpiler.ts:23-33 | the loop yields one outcome per script |
| Pipeline.OutcomeCount | transpiler.ts:23-33 | appended elements plus warnings equal the number of outcomes |
| Pipeline.EveryScriptAccountedFor | transpiler.ts:23-33 | for either variant, appended elements plus warnings equal the number of scripts |
| Pipeline.ProcessAllAppend | transpiler.ts:23-33 | for either variant, the loop over `a + b` is the loop over `a`, then over `b` from the cache `a` left |
| Pipeline.OutcomeAt | transpiler.ts:23-33 | for either variant, the outcome at position i belongs to script i, in document order, and depends only on it and the cache the earlier scripts left |
| Pipeline.WarnedKeepsEntries | transpiler.ts:29-31 | for either variant, a script that is not transpiled leaves the cache as it found it |
| Pipeline.FailedScriptIsolated | transpiler.ts:24-32 | for either variant, a failing script adds exactly one warning in its place; the others are processed as if it were absent |
| Pipeline.InjectedMeansCompiled | transpiler.ts:25-28 | for either variant, an element is appended only for a script whose source was obtained, and it wraps what that variant's gateway returned for `eTag + configEtag` |
| Pipeline.WritesCarryConfigTag | transpiler.ts:19-26 | for either variant, every cache entry the loop writes is keyed by some script's `eTag` followed by the single `configEtag` of the run |
| Pipeline.RejectedConfigDoesNothing | transpiler.ts:5 | when `getConfig` rejects, the module stops: nothing is cleaned, compiled, appended or warned |
| Pipeline.AbsentConfigUsesDefault | transpiler.ts:5-21 | for either variant, without a configuration the default (es2022, typescript, minify, sourceMaps, es6) is fingerprinted and used after one clean with that variant's test |
| Pipeline.ColdScriptWarns | transpiler.ts:24-32 | as written, a script met with an empty cache ends in a warning and writes nothing |
| Pipeline.ColdLoopOnlyWarns | transpiler.ts:23-33 | as written, the loop over an empty cache warns about every script in order and leaves the cache empty |
| Pipeline.ColdPageOnlyWarns | transpiler.ts:3-33 | as written, a page visited with an empty cache appends nothing, warns about the `src` of every script in document order, and leaves the cache empty |
| Pipeline.ColdScriptCompiles | transpiler.ts:24-32 | corrected, a script whose source is obtained and compiles is injected and cached even with an empty cache |
| Pipeline.VariantsPartOnFirstVisit | transpiler.ts:3-33 | on an empty cache, one inline script that compiles is warned about as written and injected and cached when corrected |

## Left out

- `getConfig` (definitions.ts:106-110) reads the DOM and the network. Its outcome is an input:
  a configuration, `null`/`undefined`, or a rejection. The text it returns is kept
  unparsed, as the cast does.
- Pipeline.AbsentConfigUsesDefault: the input `Absent` is more than `getConfig` as written can
  produce. `textContent` of a found element is a string, and `fetch('')` loads the page
  itself, so the promise never settles to `null` or `undefined` and the default
  configuration is unreachable as written. The lemma states what the `??` does when it is.
- The DOM is left out: `querySelectorAll`, `createElement`, `appendChild`, and the `src`,
  `type` and `textContent` properties. Scripts are an input sequence. Injected elements and
  warnings are output sequences.
- `fetch` and `Response.text()` are a function from URL to response or network error.
  Asynchrony and the interleaving of `await`s are not modelled.
- `Date.now()` is a parameter: one reading for `clean` and one per script for its `cache.set`.
- swc's `transform` and `JSON.stringify` are uninterpreted functions.
- `console.warn` keeps only the `src` of the script, not the formatted message.
- `for...in` over `localStorage` also enumerates inherited members such as `getItem`. They
  never contain the prefix and their timestamp is `NaN`, so `get` and `clean` skip them.
  The model enumerates stored keys only.
- Strings are sequences of Unicode scalar values, so `JsString.CodeUnits` never yields a
  lone surrogate. A JavaScript string holding one, for which `charCodeAt` returns it as it
  is, is outside the model.
- Cache.SetItem: the place of a new key in the enumeration order (last) and the order of the
  remaining keys after `removeItem` are choices of the model. The Web Storage standard
  leaves the order of keys to the user agent, and adding or removing a key may reorder
  them. `get` returns the first matching key in that order, so when several keys contain
  the needle its answer follows from this choice. `Cache.LookupAfterFirstSet` and
  `Compiler.MissCompilesAndStores` state the appended position too. For example, as
  written, a cached "" stays first: each later visit compiles again, adds one more key,
  and `get` still returns "" (`Compiler.EmptyHitRecompiles`). A browser that enumerates
  the new key first would return the compiled code instead.
- `localStorage` quota errors, storage events and concurrent pages are left out.
- JsString.ParseInt: does not model the precision loss of numbers above 2^53, nor the
  exponent notation `toString` uses from 10^21 on. Decimal integers are exact.
- Cache.StoredKeyTimestamp: is stated for names without '_'. A name containing `__` moves
  the field `clean` parses. The names the pipeline uses are `eTag + configEtag`. The
  `configEtag` half and a fingerprint `eTag` never contain '_', but an `eTag` taken from a
  server's ETag header may contain `__`. For such a script `clean` parses part of the ETag,
  not the write time.
- Cache.AsWrittenEvictsYoungEntries: is stated for names without '_', for the same reason.
- Cache.ExpiryEvictsOldEntries: is stated for names without '_', for the same reason.
- Cache.CleanAsWrittenIsInverted: is stated for names without '_', for the same reason.

## Findings

| source | as written | input that shows it | evidently intended | confidence | as-written member | corrected member |
|---|---|---|---|---|---|---|
| definitions.ts:35 | `clean` removes an entry when `timestamp + lifetime*24*3600 > now`. That keeps old entries, removes young ones, and counts the lifetime in seconds against a clock in milliseconds | an entry written at `now` is removed; one written 31 days earlier is kept (lifetime 30) | remove entries whose age `now - timestamp` exceeds `lifetime` days in milliseconds, as the doc comment at definitions.ts:26-29 says | high, not executed | Cache.CleanAsWrittenIsInverted (on Cache.Store.Clean) | Cache.ExpiryEvictsOldEntries (on Cache.Store.CleanExpired) |
| definitions.ts:64 | `compileAndCache` calls `cache.get`, which throws when no key matches (definitions.ts:23), so `transform` never runs for a source not yet in the cache and nothing is ever stored | any call on an empty cache: it throws and the cache stays empty | a miss leads to compiling and caching the source, as the `if (exists)` fallback shows | high, not executed | Compiler.ColdCacheStaysCold (on Compiler.GatewayAsWritten) | Compiler.CompileOnce (on Compiler.Gateway) |

The pipeline (`Pipeline.Run`) runs either variant. `Written` calls `Cache.Store.Clean` and
`Compiler.CompileAndCacheAsWritten`. `Intended` calls `Cache.Store.CleanExpired` and
`Compiler.CompileAndCache`. The `compileAndCache` finding alone keeps the cache empty as
written: a page visited with an empty cache appends nothing and warns about every script
(`Pipeline.ColdPageOnlyWarns`), and its cache stays empty, so the next visit does the same.
Cleaning an empty cache changes nothing, so the `clean` finding plays no part in this; on its
own, `clean` as written with its default 30 days removes entries younger than 43.2 minutes
and keeps older ones.
`Pipeline.VariantsPartOnFirstVisit` shows one inline script on which the two variants part.
