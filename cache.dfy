/**
  The `cache` object: a timestamped key/value store on top of `localStorage`.

  `localStorage` is modelled as the sequence of its entries in enumeration order
  (`for (const entry in localStorage)`), with unique keys; `Date.now()` is a parameter.
  `set` writes under `ts-script-tag::<name>__<now>`, `get` returns the value of the first
  key that contains `ts-script-tag::<name>` and throws when none does, and `clean` removes
  entries by a test on the number after the first `__` of their key.
 */
module Cache {
  import opened Wrappers
  import opened JsString

  /** `cache._preffix`. */
  const Prefix: string := "ts-script-tag"

  /** The default `lifetime` argument of `clean`, in days. */
  const DefaultLifetimeDays: int := 30

  datatype Entry = Entry(key: string, value: string)

  /** The error `get` throws: `[localStorage] Unkwon name "<name>"`. */
  datatype CacheError = UnknownName(name: string)

  /** What `get` searches for: `ts-script-tag::<name>`. */
  function Needle(name: string): string
  {
    Prefix + "::" + name
  }

  /** The key `set` writes: `ts-script-tag::<name>__<now>`. */
  function StoredKey(name: string, now: int): string
  {
    Needle(name) + Separator + NumberToString(now, 10)
  }

  /** `localStorage` holds each key at most once. */
  predicate UniqueKeys(es: seq<Entry>)
  {
    forall i, j :: 0 <= i < j < |es| ==> es[i].key != es[j].key
  }

  predicate HasKey(es: seq<Entry>, key: string)
  {
    exists e: Entry :: e in es && e.key == key
  }

  /**
    `localStorage.setItem(key, value)`: an existing key gets the new value in its place,
    a new key is appended; no other entry changes.
   */
  function SetItem(es: seq<Entry>, key: string, value: string): (r: seq<Entry>)
    ensures Entry(key, value) in r
    ensures !HasKey(es, key) ==> r == es + [Entry(key, value)]
    ensures HasKey(es, key) ==> |r| == |es|
  {
    if es == [] then [Entry(key, value)]
    else if es[0].key == key then
      assert es == [es[0]] + es[1..];
      [Entry(key, value)] + es[1..]
    else
      var r := [es[0]] + SetItem(es[1..], key, value);
      assert forall e: Entry :: e in es && e != es[0] ==> e in es[1..];
      r
  }

  /** `localStorage.removeItem(key)`: every other entry stays, in order. */
  function RemoveItem(es: seq<Entry>, key: string): seq<Entry>
  {
    if es == [] then [] else (if es[0].key == key then [] else [es[0]]) + RemoveItem(es[1..], key)
  }

  /** The index of the first entry, in enumeration order, whose key contains `needle`. */
  function FirstMatch(es: seq<Entry>, needle: string): (r: Option<nat>)
    ensures r.None? <==> forall i :: 0 <= i < |es| ==> !Includes(es[i].key, needle)
    ensures r.Some? ==> r.value < |es| && Includes(es[r.value].key, needle)
    ensures r.Some? ==> forall j :: 0 <= j < r.value ==> !Includes(es[j].key, needle)
  {
    if es == [] then None
    else if Includes(es[0].key, needle) then Some(0)
    else
      var r := FirstMatch(es[1..], needle);
      assert forall i :: 1 <= i < |es| ==> es[i] == es[1..][i - 1];
      match r
      case None => None
      case Some(k) => Some(k + 1)
  }

  /** What `get(name)` returns or throws on the store `es`. */
  function Lookup(es: seq<Entry>, name: string): Result<string, CacheError>
  {
    match FirstMatch(es, Needle(name))
    case None => Err(UnknownName(name))
    case Some(i) => Ok(es[i].value)
  }

  /** `parseInt(entry.split('__')[1])`, with `None` for `NaN`. */
  function ParseTimestamp(key: string): Option<int>
  {
    match SecondField(key)
    case None => None
    case Some(field) => ParseInt(field)
  }

  /**
    An eviction test applied to every key by a cleaning pass. `AsWritten` is the test of
    `clean` in the source: `timestamp + lifetime * 24 * 3_600 > now`. `Expiry` is the test its
    documentation describes: the entry is older than `lifetime` days, in milliseconds.
    Both keep a key whose timestamp does not parse (every comparison with `NaN` is false).
   */
  datatype Policy = AsWritten(lifetimeDays: int, now: int) | Expiry(lifetimeDays: int, now: int)

  predicate Evicts(p: Policy, key: string)
  {
    match ParseTimestamp(key)
    case None => false
    case Some(t) =>
      match p
      case AsWritten(days, now) => t + days * 24 * 3_600 > now
      case Expiry(days, now) => now - t > days * 24 * 3_600 * 1_000
  }

  /** The test of a policy as the function a cleaning pass applies to each key. */
  function EvictionTest(p: Policy): string -> bool
  {
    key => Evicts(p, key)
  }

  /** The entries a cleaning pass with the test `evict` keeps, in their order. */
  function Retain(es: seq<Entry>, evict: string -> bool): seq<Entry>
  {
    if es == [] then []
    else
      var last := es[|es| - 1];
      Retain(es[..|es| - 1], evict) + (if evict(last.key) then [] else [last])
  }

  class Store {
    /** The contents of `localStorage`, in enumeration order. */
    var entries: seq<Entry>

    ghost predicate Valid()
      reads this
    {
      UniqueKeys(entries)
    }

    constructor (initial: seq<Entry>)
      requires UniqueKeys(initial)
      ensures Valid() && entries == initial
    {
      entries := initial;
    }

    /** `cache.set(name, data)` at time `now`. */
    method Set(name: string, data: string, now: int)
      requires Valid()
      modifies this
      ensures Valid()
      ensures entries == SetItem(old(entries), StoredKey(name, now), data)
    {
      SetItemUnique(entries, StoredKey(name, now), data);
      entries := SetItem(entries, StoredKey(name, now), data);
    }

    /** `cache.get(name)`: the first entry whose key contains `ts-script-tag::<name>`, or the error. */
    method Get(name: string) returns (r: Result<string, CacheError>)
      ensures r == Lookup(entries, name)
      ensures r.Err? <==> forall i :: 0 <= i < |entries| ==> !Includes(entries[i].key, Needle(name))
      ensures r.Ok? ==> exists i :: 0 <= i < |entries| && Includes(entries[i].key, Needle(name))
                                    && r.value == entries[i].value
                                    && forall j :: 0 <= j < i ==> !Includes(entries[j].key, Needle(name))
    {
      var needle := Needle(name);
      var i := 0;
      while i < |entries|
        invariant 0 <= i <= |entries|
        invariant forall j :: 0 <= j < i ==> !Includes(entries[j].key, needle)
      {
        if Includes(entries[i].key, needle) {
          return Ok(entries[i].value);
        }
        i := i + 1;
      }
      return Err(UnknownName(name));
    }

    /** `cache.clean(lifetime)` as the source writes it, with `Date.now()` read as `now`. */
    method Clean(lifetime: int, now: int)
      requires Valid()
      modifies this
      ensures Valid()
      ensures entries == Retain(old(entries), EvictionTest(AsWritten(lifetime, now)))
    {
      RemoveWhere(EvictionTest(AsWritten(lifetime, now)));
    }

    /** The cleaning pass the documentation of `clean` describes: drop entries older than `lifetime` days. */
    method CleanExpired(lifetime: int, now: int)
      requires Valid()
      modifies this
      ensures Valid()
      ensures entries == Retain(old(entries), EvictionTest(Expiry(lifetime, now)))
    {
      RemoveWhere(EvictionTest(Expiry(lifetime, now)));
    }

    /**
      The loop of `clean`: visit the keys present when the loop starts, in order, and remove
      the current one when the test holds.
     */
    method RemoveWhere(evict: string -> bool)
      requires Valid()
      modifies this
      ensures Valid()
      ensures entries == Retain(old(entries), evict)
    {
      var snapshot := entries;
      var i := 0;
      while i < |snapshot|
        invariant 0 <= i <= |snapshot|
        invariant UniqueKeys(snapshot)
        invariant entries == Retain(snapshot[..i], evict) + snapshot[i..]
      {
        var key := snapshot[i].key;
        if evict(key) {
          RemoveCurrent(snapshot, i, evict);
          entries := RemoveItem(entries, key);
        } else {
          KeepCurrent(snapshot, i, evict);
        }
        i := i + 1;
      }
      assert snapshot[..i] == snapshot;
      RetainUnique(snapshot, evict);
    }
  }

  // ----- keys, lookups and the eviction tests ----------------------------------------

  lemma NoSeparatorAt(s: string, i: nat)
    requires i < |s| && s[i] != '_'
    ensures !(Separator <= s[i..])
  {
    assert s[i..][0] == s[i];
  }

  lemma NoSeparator(s: string)
    requires '_' !in s
    ensures IndexOf(s, Separator) == None
  {
    forall i | 0 <= i <= |s|
      ensures !(Separator <= s[i..])
    {
      if i < |s| {
        assert s[i] in s;
        NoSeparatorAt(s, i);
      }
    }
  }

  lemma FirstSeparator(a: string, b: string)
    requires '_' !in a
    ensures IndexOf(a + Separator + b, Separator) == Some(|a|)
  {
    var s := a + Separator + b;
    assert s[|a|..] == Separator + b;
    assert Includes(s, Separator);
    forall j | 0 <= j < |a|
      ensures !(Separator <= s[j..])
    {
      assert s[j] == a[j];
      NoSeparatorAt(s, j);
    }
  }

  /** A key written by `set` for a name without '_' carries its write time after the first `__`. */
  lemma StoredKeyTimestamp(name: string, now: int)
    requires '_' !in name
    ensures ParseTimestamp(StoredKey(name, now)) == Some(now)
  {
    var n := Needle(name);
    var d := NumberToString(now, 10);
    assert '_' !in n by {
      assert n == Prefix + "::" + name;
      assert '_' !in Prefix + "::";
    }
    FirstSeparator(n, d);
    assert StoredKey(name, now)[|n| + |Separator|..] == d;
    NumberToStringHasNoUnderscore(now);
    NoSeparator(d);
    ParseIntOfNumberToString(now);
  }

  /** The key written by `set(name, ...)` contains the needle `get(name)` looks for. */
  lemma StoredKeyMatches(name: string, now: int)
    ensures Includes(StoredKey(name, now), Needle(name))
  {
    assert Needle(name) <= StoredKey(name, now)[0..];
  }

  /** After `set(name, v)`, `get(name)` no longer throws. */
  lemma LookupAfterSetSucceeds(es: seq<Entry>, name: string, now: int, v: string)
    ensures Lookup(SetItem(es, StoredKey(name, now), v), name).Ok?
  {
    var r := SetItem(es, StoredKey(name, now), v);
    StoredKeyMatches(name, now);
    var k :| 0 <= k < |r| && r[k] == Entry(StoredKey(name, now), v);
    assert Includes(r[k].key, Needle(name));
  }

  /** On a store where `get(name)` throws, `set(name, v)` makes `get(name)` return `v`. */
  lemma LookupAfterFirstSet(es: seq<Entry>, name: string, now: int, v: string)
    requires Lookup(es, name).Err?
    ensures SetItem(es, StoredKey(name, now), v) == es + [Entry(StoredKey(name, now), v)]
    ensures Lookup(SetItem(es, StoredKey(name, now), v), name) == Ok(v)
  {
    var key := StoredKey(name, now);
    StoredKeyMatches(name, now);
    assert !HasKey(es, key) by {
      forall e: Entry | e in es
        ensures e.key != key
      {
        var j :| 0 <= j < |es| && es[j] == e;
        assert !Includes(es[j].key, Needle(name));
      }
    }
    var r := es + [Entry(key, v)];
    assert SetItem(es, key, v) == r;
    assert forall j :: 0 <= j < |es| ==> r[j] == es[j];
    assert Includes(r[|es|].key, Needle(name));
  }

  /** An entry added after a key that `get(name)` already finds does not change what it returns. */
  lemma LookupUnchangedByAppend(es: seq<Entry>, name: string, e: Entry)
    requires Lookup(es, name).Ok?
    ensures Lookup(es + [e], name) == Lookup(es, name)
  {
    var k := FirstMatch(es, Needle(name)).value;
    assert (es + [e])[k] == es[k];
    var r := FirstMatch(es + [e], Needle(name));
    assert r.Some?;
    assert forall j :: 0 <= j < k ==> (es + [e])[j] == es[j];
    assert r.value == k;
  }

  /**
    `get` matches by substring: a lookup of one name can return the value stored for a
    longer name that starts with it.
   */
  lemma LookupMatchesLongerName(v: string)
    ensures Lookup([Entry(StoredKey("ab", 1), v)], "a") == Ok(v)
  {
    StoredKeyMatches("ab", 1);
    assert Needle("a") <= Needle("ab");
    assert Needle("a") <= StoredKey("ab", 1)[0..];
  }

  /** The test of `clean` as written removes an entry exactly while it is YOUNGER than the lifetime, counted in seconds. */
  lemma AsWrittenEvictsYoungEntries(name: string, written: int, lifetime: int, now: int)
    requires '_' !in name
    ensures Evicts(AsWritten(lifetime, now), StoredKey(name, written)) <==> now - written < lifetime * 86_400
  {
    StoredKeyTimestamp(name, written);
  }

  /** The documented test removes an entry exactly when it is older than the lifetime, in milliseconds. */
  lemma ExpiryEvictsOldEntries(name: string, written: int, lifetime: int, now: int)
    requires '_' !in name
    ensures Evicts(Expiry(lifetime, now), StoredKey(name, written)) <==> now - written > lifetime * 86_400_000
  {
    StoredKeyTimestamp(name, written);
  }

  /** Neither test touches a key without a parsable timestamp. */
  lemma UnparsableKeysKept(key: string, p: Policy)
    requires ParseTimestamp(key).None?
    ensures !Evicts(p, key)
  {
  }

  /**
    With the default 30-day lifetime, `clean` as written drops an entry written this very
    millisecond and keeps one written 31 days ago; the documented test does the opposite.
   */
  lemma CleanAsWrittenIsInverted(name: string, now: int, recent: Entry, stale: Entry)
    requires '_' !in name
    requires recent.key == StoredKey(name, now)
    requires stale.key == StoredKey(name, now - 31 * 86_400_000)
    ensures Retain([recent], EvictionTest(AsWritten(DefaultLifetimeDays, now))) == []
    ensures Retain([recent], EvictionTest(Expiry(DefaultLifetimeDays, now))) == [recent]
    ensures Retain([stale], EvictionTest(AsWritten(DefaultLifetimeDays, now))) == [stale]
    ensures Retain([stale], EvictionTest(Expiry(DefaultLifetimeDays, now))) == []
  {
    AsWrittenEvictsYoungEntries(name, now, DefaultLifetimeDays, now);
    ExpiryEvictsOldEntries(name, now, DefaultLifetimeDays, now);
    AsWrittenEvictsYoungEntries(name, now - 31 * 86_400_000, DefaultLifetimeDays, now);
    ExpiryEvictsOldEntries(name, now - 31 * 86_400_000, DefaultLifetimeDays, now);
  }

  /**
    `setItem` leaves every entry with another key where it was, and the only entry it can
    add is the new pair.
   */
  lemma {:induction false} SetItemMembers(es: seq<Entry>, key: string, value: string)
    ensures forall e: Entry :: e.key != key ==> (e in SetItem(es, key, value) <==> e in es)
    ensures forall e: Entry :: e in SetItem(es, key, value) ==> e in es || e == Entry(key, value)
    decreases |es|
  {
    if es != [] {
      assert es == [es[0]] + es[1..];
      if es[0].key != key {
        SetItemMembers(es[1..], key, value);
      }
    }
  }

  /** A cleaning pass keeps exactly the entries whose key the test does not select, and no new ones. */
  lemma {:induction false} RetainMembers(es: seq<Entry>, evict: string -> bool)
    ensures forall e: Entry :: e in Retain(es, evict) <==> e in es && !evict(e.key)
    ensures |Retain(es, evict)| <= |es|
    decreases |es|
  {
    if es != [] {
      var init, last := es[..|es| - 1], es[|es| - 1];
      assert es == init + [last];
      RetainMembers(init, evict);
    }
  }

  // ----- the store keeps its keys unique ----------------------------------------------

  lemma UniqueSnoc(a: seq<Entry>, x: Entry)
    ensures UniqueKeys(a + [x]) <==> UniqueKeys(a) && forall e: Entry :: e in a ==> e.key != x.key
  {
    var b := a + [x];
    assert forall i :: 0 <= i < |a| ==> b[i] == a[i];
    if UniqueKeys(b) {
      forall e | e in a
        ensures e.key != x.key
      {
        var i :| 0 <= i < |a| && a[i] == e;
        assert b[i].key != b[|a|].key;
      }
    }
  }

  lemma {:induction false} SetItemUnique(es: seq<Entry>, key: string, value: string)
    requires UniqueKeys(es)
    ensures UniqueKeys(SetItem(es, key, value))
  {
    var r := SetItem(es, key, value);
    if HasKey(es, key) {
      forall i, j | 0 <= i < j < |r|
        ensures r[i].key != r[j].key
      {
        SetItemAt(es, key, value, i);
        SetItemAt(es, key, value, j);
      }
    } else {
      UniqueSnoc(es, Entry(key, value));
    }
  }

  /** When the key is present, `setItem` changes only the value stored at its position. */
  lemma {:induction false} SetItemAt(es: seq<Entry>, key: string, value: string, i: nat)
    requires UniqueKeys(es) && i < |es| && HasKey(es, key)
    ensures i < |SetItem(es, key, value)|
    ensures SetItem(es, key, value)[i] == if es[i].key == key then Entry(key, value) else es[i]
    decreases i
  {
    if es[0].key == key {
      assert i > 0 ==> es[i].key != es[0].key;
    } else {
      assert UniqueKeys(es[1..]) by {
        assert forall k :: 0 <= k < |es| - 1 ==> es[1..][k] == es[k + 1];
      }
      assert HasKey(es[1..], key) by {
        var e :| e in es && e.key == key;
        assert e in es[1..];
      }
      if i > 0 {
        SetItemAt(es[1..], key, value, i - 1);
      }
    }
  }

  lemma {:induction false} RetainUnique(es: seq<Entry>, evict: string -> bool)
    requires UniqueKeys(es)
    ensures UniqueKeys(Retain(es, evict))
    decreases |es|
  {
    if es != [] {
      var init, last := es[..|es| - 1], es[|es| - 1];
      assert es == init + [last];
      UniqueSnoc(init, last);
      RetainUnique(init, evict);
      if !evict(last.key) {
        RetainMembers(init, evict);
        UniqueSnoc(Retain(init, evict), last);
      }
    }
  }

  lemma {:induction false} RemoveItemAppend(a: seq<Entry>, b: seq<Entry>, key: string)
    ensures RemoveItem(a + b, key) == RemoveItem(a, key) + RemoveItem(b, key)
    decreases |a|
  {
    if a != [] {
      assert (a + b)[0] == a[0];
      assert (a + b)[1..] == a[1..] + b;
      RemoveItemAppend(a[1..], b, key);
      var head := if a[0].key == key then [] else [a[0]];
      assert RemoveItem(a + b, key) == head + RemoveItem(a[1..] + b, key);
      assert RemoveItem(a, key) == head + RemoveItem(a[1..], key);
    } else {
      assert a + b == b;
    }
  }

  lemma {:induction false} RemoveItemAbsent(a: seq<Entry>, key: string)
    requires forall e: Entry :: e in a ==> e.key != key
    ensures RemoveItem(a, key) == a
    decreases |a|
  {
    if a != [] {
      assert forall e: Entry :: e in a[1..] ==> e in a;
      RemoveItemAbsent(a[1..], key);
    }
  }

  /** Removing the key visited at step `i` removes exactly that entry from the store. */
  lemma RemoveCurrent(snapshot: seq<Entry>, i: nat, evict: string -> bool)
    requires UniqueKeys(snapshot) && i < |snapshot| && evict(snapshot[i].key)
    ensures RemoveItem(Retain(snapshot[..i], evict) + snapshot[i..], snapshot[i].key)
            == Retain(snapshot[..i + 1], evict) + snapshot[i + 1..]
  {
    var kept := Retain(snapshot[..i], evict);
    KeyNotBefore(snapshot, i, evict);
    KeyNotAfter(snapshot, i);
    RemoveBetween(kept, snapshot[i], snapshot[i + 1..]);
    assert snapshot[i..] == [snapshot[i]] + snapshot[i + 1..];
    RetainStep(snapshot, i, evict);
  }

  /** Removing a key that occurs once, between entries with other keys, leaves those entries. */
  lemma RemoveBetween(kept: seq<Entry>, x: Entry, rest: seq<Entry>)
    requires forall e: Entry :: e in kept ==> e.key != x.key
    requires forall e: Entry :: e in rest ==> e.key != x.key
    ensures RemoveItem(kept + ([x] + rest), x.key) == kept + rest
  {
    var t := [x] + rest;
    assert t[0] == x && t[1..] == rest;
    assert RemoveItem(t, x.key) == RemoveItem(rest, x.key);
    RemoveItemAbsent(kept, x.key);
    RemoveItemAbsent(rest, x.key);
    RemoveItemAppend(kept, t, x.key);
  }

  /** `removeItem` keeps exactly the entries with another key. */
  lemma {:induction false} RemoveItemKeepsOthers(es: seq<Entry>, key: string)
    ensures forall e: Entry :: e in RemoveItem(es, key) <==> e in es && e.key != key
    decreases |es|
  {
    if es != [] {
      RemoveItemKeepsOthers(es[1..], key);
      assert es == [es[0]] + es[1..];
    }
  }

  /** A key the test keeps moves from the unvisited part to the kept prefix. */
  lemma KeepCurrent(snapshot: seq<Entry>, i: nat, evict: string -> bool)
    requires i < |snapshot| && !evict(snapshot[i].key)
    ensures Retain(snapshot[..i], evict) + snapshot[i..] == Retain(snapshot[..i + 1], evict) + snapshot[i + 1..]
  {
    var kept := Retain(snapshot[..i], evict);
    RetainStep(snapshot, i, evict);
    assert Retain(snapshot[..i + 1], evict) == kept + [snapshot[i]];
    assert snapshot[i..] == [snapshot[i]] + snapshot[i + 1..];
    assert kept + ([snapshot[i]] + snapshot[i + 1..]) == (kept + [snapshot[i]]) + snapshot[i + 1..];
  }

  lemma KeyNotBefore(snapshot: seq<Entry>, i: nat, evict: string -> bool)
    requires UniqueKeys(snapshot) && i < |snapshot|
    ensures forall e: Entry :: e in Retain(snapshot[..i], evict) ==> e.key != snapshot[i].key
  {
    RetainMembers(snapshot[..i], evict);
    forall e: Entry | e in Retain(snapshot[..i], evict)
      ensures e.key != snapshot[i].key
    {
      var j :| 0 <= j < i && snapshot[..i][j] == e;
    }
  }

  lemma KeyNotAfter(snapshot: seq<Entry>, i: nat)
    requires UniqueKeys(snapshot) && i < |snapshot|
    ensures forall e: Entry :: e in snapshot[i + 1..] ==> e.key != snapshot[i].key
  {
    forall e: Entry | e in snapshot[i + 1..]
      ensures e.key != snapshot[i].key
    {
      var j :| 0 <= j < |snapshot| - i - 1 && snapshot[i + 1..][j] == e;
      assert snapshot[i + 1 + j] == e;
    }
  }

  /** One more visited key adds its entry to the kept prefix unless the test evicts it. */
  lemma RetainStep(snapshot: seq<Entry>, i: nat, evict: string -> bool)
    requires i < |snapshot|
    ensures Retain(snapshot[..i + 1], evict)
            == Retain(snapshot[..i], evict) + (if evict(snapshot[i].key) then [] else [snapshot[i]])
  {
    assert snapshot[..i + 1][..i] == snapshot[..i];
  }
}
