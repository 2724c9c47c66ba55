/** `CachedFallbackSearch` (backend/app/v2/search.py): a cache with a time to live and least recently
    used eviction, shared by concurrent searches. */
module SearchCache {
  import opened Collections
  import opened Domain

  /** The digest of the query stands for the query. */
  datatype Key = Key(query: string, limit: int)

  type Values = seq<string>

  datatype Entry = Entry(key: Key, expires: real, values: Values)

  // ---------------------------------------------------------------- the ordered dictionary

  /** Keys in the OrderedDict's order, the one used longest ago first. */
  type Entries = seq<Entry>

  function Find(entries: Entries, key: Key): (found: Option<Entry>)
    ensures found.Some? ==> found.value in entries && found.value.key == key
    ensures found.None? ==> forall e :: e in entries ==> e.key != key
  {
    if entries == [] then None
    else if entries[0].key == key then Some(entries[0])
    else Find(entries[1..], key)
  }

  function Without(entries: Entries, key: Key): (rest: Entries)
    ensures |rest| <= |entries|
    ensures forall e :: e in rest <==> e in entries && e.key != key
  {
    if entries == [] then []
    else if entries[|entries| - 1].key == key then Without(entries[..|entries| - 1], key)
    else
      assert entries == entries[..|entries| - 1] + [entries[|entries| - 1]];
      Without(entries[..|entries| - 1], key) + [entries[|entries| - 1]]
  }

  function Trimmed(entries: Entries, maxEntries: nat): Entries {
    if |entries| > maxEntries then entries[|entries| - maxEntries..] else entries
  }

  predicate Fresh(entry: Option<Entry>, now: real) {
    entry.Some? && entry.value.expires > now
  }

  function AfterLookup(entries: Entries, key: Key, now: real): Entries {
    var cached := Find(entries, key);
    if Fresh(cached, now) then Without(entries, key) + [cached.value] else Without(entries, key)
  }

  function AfterStore(entries: Entries, key: Key, expires: real, values: Values, maxEntries: nat): Entries {
    Trimmed(Without(entries, key) + [Entry(key, expires, values)], maxEntries)
  }

  // ---------------------------------------------------------------- the shared object

  /** How the providers answered, in the order they were tried. */
  datatype Answer = Results(values: Values) | SearchError(message: string)

  datatype Outcome = Values(values: Values) | Raised(message: string)

  class CachedFallbackSearch {
    const ttl: real
    const maxEntries: nat
    var cache: Entries

    constructor (ttl: real, maxEntries: nat)
      requires ttl > 0.0 && maxEntries > 0
      ensures cache == [] && this.ttl == ttl && this.maxEntries == maxEntries
    {
      this.ttl, this.maxEntries, cache := ttl, maxEntries, [];
    }

    /** The first lock section; `now` was read before the lock was taken. */
    method Lookup(key: Key, now: real) returns (hit: Option<Values>)
      modifies this
      ensures cache == AfterLookup(old(cache), key, now)
      ensures hit == HitOf(old(cache), key, now)
    {
      var cached := Find(cache, key);
      if cached.Some? && cached.value.expires > now {
        cache := Without(cache, key) + [cached.value];
        return Some(cached.value.values);
      }
      if cached.Some? {
        cache := Without(cache, key);
      } else {
        NothingToRemove(cache, key);
      }
      return None;
    }

    /** The second lock section; the clock is read again inside it. */
    method Store(key: Key, now: real, values: Values)
      modifies this
      ensures cache == AfterStore(old(cache), key, now + ttl, values, maxEntries)
    {
      cache := Without(cache, key) + [Entry(key, now + ttl, values)];
      ghost var full := cache;
      while |cache| > maxEntries
        invariant |cache| <= |full| && cache == full[|full| - |cache|..]
        invariant |full| > maxEntries ==> |cache| >= maxEntries
        invariant |full| <= maxEntries ==> cache == full
      {
        cache := cache[1..];
      }
    }

    /** One undisturbed `search`: the cache, then each provider until one answers. */
    method Search(key: Key, before: real, after: real, answers: seq<Answer>) returns (r: Outcome)
      requires answers != []
      modifies this
      ensures var hit := HitOf(old(cache), key, before);
        var first := FirstResults(answers);
        if hit.Some? then r == Values(hit.value) && cache == AfterLookup(old(cache), key, before)
        else if first.None? then
          r == Raised(LastMessage(answers)) && cache == AfterLookup(old(cache), key, before)
        else
          && r == Values(first.value)
          && cache == AfterStore(AfterLookup(old(cache), key, before), key, after + ttl, first.value, maxEntries)
    {
      var hit := Lookup(key, before);
      if hit.Some? {
        return Values(hit.value);
      }
      var lastError := "";
      ghost var looked := cache;
      for i := 0 to |answers|
        invariant cache == looked
        invariant FirstResults(answers) == FirstResults(answers[i..])
        invariant i > 0 ==> answers[i - 1].SearchError? && lastError == answers[i - 1].message
      {
        if answers[i].SearchError? {
          lastError := answers[i].message;
          assert answers[i..][1..] == answers[i + 1..];
          continue;
        }
        Store(key, after, answers[i].values);
        return Values(answers[i].values);
      }
      return Raised(lastError);
    }
  }

  function HitOf(entries: Entries, key: Key, now: real): Option<Values> {
    var cached := Find(entries, key);
    if Fresh(cached, now) then Some(cached.value.values) else None
  }

  /** What the first provider that answers returns. */
  function FirstResults(answers: seq<Answer>): (first: Option<Values>)
    ensures first.None? <==> forall i :: 0 <= i < |answers| ==> answers[i].SearchError?
    ensures forall i :: 0 <= i < |answers| && answers[i].Results?
                        && (forall j :: 0 <= j < i ==> answers[j].SearchError?)
              ==> first == Some(answers[i].values)
  {
    if answers == [] then None
    else if answers[0].Results? then Some(answers[0].values)
    else
      assert forall i :: 0 < i < |answers| ==> answers[i] == answers[1..][i - 1];
      FirstResults(answers[1..])
  }

  function LastMessage(answers: seq<Answer>): (message: string)
    requires answers != []
    ensures answers[|answers| - 1].SearchError? ==> answers[|answers| - 1] == SearchError(message)
  {
    match answers[|answers| - 1]
    case SearchError(message) => message
    case Results(_) => ""
  }

  lemma {:induction false} NothingToRemove(entries: Entries, key: Key)
    requires forall e :: e in entries ==> e.key != key
    ensures Without(entries, key) == entries
  {
    if entries != [] {
      NothingToRemove(entries[..|entries| - 1], key);
      assert entries[|entries| - 1] in entries;
    }
  }

  // ---------------------------------------------------------------- any interleaving of searches

  /** The two lock sections, each atomic. A search is a Look and perhaps, any time later, a Put of
      what a provider returned; the sections of different searches interleave freely. */
  datatype Op = Look(key: Key, now: real) | Put(key: Key, now: real, values: Values)

  datatype Config = Config(ttl: real, maxEntries: nat)

  function After(ops: seq<Op>, c: Config): Entries {
    if ops == [] then [] else Step(After(ops[..|ops| - 1], c), ops[|ops| - 1], c)
  }

  function Step(entries: Entries, op: Op, c: Config): Entries {
    match op
    case Look(key, now) => AfterLookup(entries, key, now)
    case Put(key, now, values) => AfterStore(entries, key, now + c.ttl, values, c.maxEntries)
  }

  /** Where the latest Put of `key` is. */
  function LastPut(ops: seq<Op>, key: Key): (k: Option<nat>)
    ensures k.Some? ==> k.value < |ops| && ops[k.value].Put? && ops[k.value].key == key
    ensures forall j :: (if k.Some? then k.value + 1 else 0) <= j < |ops| && ops[j].Put? ==> ops[j].key != key
  {
    if ops == [] then None
    else if ops[|ops| - 1].Put? && ops[|ops| - 1].key == key then Some(|ops| - 1)
    else LastPut(ops[..|ops| - 1], key)
  }

  /** An operation uses its key when it is a Put or a Look that hits. */
  predicate Uses(entries: Entries, op: Op) {
    op.Put? || Fresh(Find(entries, op.key), op.now)
  }

  /** When `key` was used last; 0 for never. */
  function LastUse(ops: seq<Op>, key: Key, c: Config): (n: nat)
    ensures n <= |ops|
  {
    if ops == [] then 0
    else if ops[|ops| - 1].key == key && Uses(After(ops[..|ops| - 1], c), ops[|ops| - 1]) then |ops|
    else LastUse(ops[..|ops| - 1], key, c)
  }

  // ---------------------------------------------------------------- what every interleaving keeps

  lemma {:induction false} NeverTooMany(ops: seq<Op>, c: Config)
    ensures |After(ops, c)| <= c.maxEntries
  {
    if ops != [] {
      var before, op := After(ops[..|ops| - 1], c), ops[|ops| - 1];
      NeverTooMany(ops[..|ops| - 1], c);
      if Find(before, op.key).Some? {
        FoundShortens(before, op.key);
      }
    }
  }

  lemma {:induction false} FoundShortens(entries: Entries, key: Key)
    requires Find(entries, key).Some?
    ensures |Without(entries, key)| < |entries|
  {
    var e := Find(entries, key).value;
    if entries[|entries| - 1].key != key {
      var rest := entries[..|entries| - 1];
      assert e in rest;
      FoundShortens(rest, key);
    }
  }

  /** An entry is what the latest Put of its key stored. */
  predicate Stored(ops: seq<Op>, e: Entry, c: Config) {
    var k := LastPut(ops, e.key);
    k.Some? && e.values == ops[k.value].values && e.expires == ops[k.value].now + c.ttl
  }

  lemma {:induction false} EntriesAreStored(ops: seq<Op>, c: Config)
    ensures forall e :: e in After(ops, c) ==> Stored(ops, e, c)
  {
    if ops != [] {
      var rest, op := ops[..|ops| - 1], ops[|ops| - 1];
      EntriesAreStored(rest, c);
      var before := After(rest, c);
      forall e | e in After(ops, c) ensures Stored(ops, e, c) {
        StepAddsOne(before, op, c, e);
        if e in before {
          assert Stored(rest, e, c);
        }
      }
    }
  }

  lemma StepAddsOne(entries: Entries, op: Op, c: Config, e: Entry)
    requires e in Step(entries, op, c)
    ensures if op.Put? && e.key == op.key then e == Entry(op.key, op.now + c.ttl, op.values) else e in entries
  {
  }

  /** Entries stand in the order of their last use, `rank`. */
  ghost predicate InOrder(entries: Entries, rank: Key -> nat) {
    forall i, j :: 0 <= i < j < |entries| ==> rank(entries[i].key) < rank(entries[j].key)
  }

  function Rank(ops: seq<Op>, c: Config): Key -> nat {
    key => LastUse(ops, key, c)
  }

  /** The least recently used entry always stands first. */
  lemma {:induction false} EntriesInOrderOfUse(ops: seq<Op>, c: Config)
    ensures InOrder(After(ops, c), Rank(ops, c))
  {
    if ops != [] {
      var rest, op := ops[..|ops| - 1], ops[|ops| - 1];
      EntriesInOrderOfUse(rest, c);
      var before := After(rest, c);
      forall key | key != op.key ensures Rank(ops, c)(key) == Rank(rest, c)(key) && Rank(rest, c)(key) < |ops| {
      }
      WithoutInOrder(before, op.key, Rank(rest, c), Rank(ops, c));
      if Uses(before, op) {
        AddedLast(Without(before, op.key), op.key, Rank(ops, c));
      }
    }
  }

  lemma {:induction false} WithoutInOrder(entries: Entries, key: Key, rank: Key -> nat, later: Key -> nat)
    requires InOrder(entries, rank) && forall k :: k != key ==> later(k) == rank(k)
    ensures InOrder(Without(entries, key), later)
  {
    if entries != [] {
      var shorter, last := entries[..|entries| - 1], entries[|entries| - 1];
      WithoutInOrder(shorter, key, rank, later);
      var rest := Without(shorter, key);
      forall i | 0 <= i < |rest| && last.key != key ensures later(rest[i].key) < later(last.key) {
        assert rest[i] in shorter;
        var j :| 0 <= j < |shorter| && shorter[j] == rest[i];
        assert entries[j] == rest[i];
      }
    }
  }

  lemma AddedLast(entries: Entries, key: Key, rank: Key -> nat)
    requires InOrder(entries, rank) && forall e :: e in entries ==> rank(e.key) < rank(key)
    ensures forall e: Entry :: e.key == key ==> InOrder(entries + [e], rank)
  {
  }

  /** A hit returns the value of the latest Put of exactly that query and limit, stored less than the
      time to live before the lookup's clock reading. */
  lemma HitIsTheLatestPut(ops: seq<Op>, key: Key, now: real, c: Config)
    ensures var (hit, k) := (HitOf(After(ops, c), key, now), LastPut(ops, key));
      hit.Some? ==> k.Some? && hit.value == ops[k.value].values && now < ops[k.value].now + c.ttl
  {
    EntriesAreStored(ops, c);
  }

  // ---------------------------------------------------------------- what makes a key go

  predicate Present(entries: Entries, key: Key) {
    Find(entries, key).Some?
  }

  /** The keys used more recently than `key`. */
  ghost function UsedSince(ops: seq<Op>, key: Key, c: Config): set<Key> {
    set j | 0 <= j < |ops| && LastUse(ops, ops[j].key, c) > LastUse(ops, key, c) :: ops[j].key
  }

  /** A Look after the latest Put of `key` found it expired. */
  ghost predicate SeenExpired(ops: seq<Op>, key: Key, c: Config) {
    var k := LastPut(ops, key);
    k.Some? && exists j :: k.value < j < |ops| && ExpiredLook(ops[j], key, ops[k.value].now + c.ttl)
  }

  predicate ExpiredLook(op: Op, key: Key, expires: real) {
    op.Look? && op.key == key && op.now >= expires
  }

  /** A stored key is gone only if it was seen expired or at least `maxEntries` other keys have been
      used since its own last use: eviction takes the least recently used key. */
  lemma {:induction false} OnlyExpiryOrEvictionLoses(ops: seq<Op>, key: Key, c: Config)
    requires LastPut(ops, key).Some? && c.maxEntries > 0
    ensures Present(After(ops, c), key) || SeenExpired(ops, key, c) || |UsedSince(ops, key, c)| >= c.maxEntries
  {
    var rest, op := ops[..|ops| - 1], ops[|ops| - 1];
    var before := After(rest, c);
    if op.key == key && Uses(before, op) {
      LastStays(Without(before, key), key, c.maxEntries);
    } else {
      OnlyExpiryOrEvictionLoses(rest, key, c);
      UsedSinceGrows(ops, key, c);
      if SeenExpired(rest, key, c) {
        StillSeenExpired(ops, key, c);
      } else if Present(before, key) && op.key == key {
        NowSeenExpired(ops, key, c);
      } else if Present(before, key) && op.Look? {
        LookKeepsOthers(before, op, key, c);
      } else if Present(before, key) && !Present(Trimmed(Full(before, op, c), c.maxEntries), key) {
        NeverTooMany(rest, c);
        PutEvictsTheFirst(before, op, key, c);
        EvictedByOthers(ops, key, c);
      }
    }
  }

  lemma LastStays(entries: Entries, key: Key, maxEntries: nat)
    requires maxEntries > 0
    ensures forall e: Entry :: e.key == key ==>
              Present(Trimmed(entries + [e], maxEntries), key) && Present(entries + [e], key)
  {
    forall e: Entry | e.key == key
      ensures Present(Trimmed(entries + [e], maxEntries), key) && Present(entries + [e], key)
    {
      var kept := Trimmed(entries + [e], maxEntries);
      assert kept[|kept| - 1] == e && e in kept && e in entries + [e];
    }
  }

  lemma UsedSinceGrows(ops: seq<Op>, key: Key, c: Config)
    requires ops != [] && LastUse(ops, key, c) == LastUse(ops[..|ops| - 1], key, c)
    ensures |UsedSince(ops[..|ops| - 1], key, c)| <= |UsedSince(ops, key, c)|
  {
    var rest := ops[..|ops| - 1];
    assert UsedSince(rest, key, c) <= UsedSince(ops, key, c);
    SubsetIsSmaller(UsedSince(rest, key, c), UsedSince(ops, key, c));
  }

  lemma StillSeenExpired(ops: seq<Op>, key: Key, c: Config)
    requires ops != [] && SeenExpired(ops[..|ops| - 1], key, c)
    requires !(ops[|ops| - 1].Put? && ops[|ops| - 1].key == key)
    ensures SeenExpired(ops, key, c)
  {
    var rest := ops[..|ops| - 1];
    var k := LastPut(rest, key).value;
    var j :| k < j < |rest| && ExpiredLook(rest[j], key, rest[k].now + c.ttl);
    assert ops[j] == rest[j] && ops[k] == rest[k];
  }

  lemma NowSeenExpired(ops: seq<Op>, key: Key, c: Config)
    requires ops != [] && LastPut(ops[..|ops| - 1], key).Some?
    requires ops[|ops| - 1].Look? && ops[|ops| - 1].key == key
    requires var before := After(ops[..|ops| - 1], c); Present(before, key) && !Uses(before, ops[|ops| - 1])
    ensures SeenExpired(ops, key, c)
  {
    var rest := ops[..|ops| - 1];
    EntriesAreStored(rest, c);
    assert Stored(rest, Find(After(rest, c), key).value, c);
    assert ExpiredLook(ops[|rest|], key, ops[LastPut(ops, key).value].now + c.ttl);
  }

  lemma LookKeepsOthers(entries: Entries, op: Op, key: Key, c: Config)
    requires op.Look? && op.key != key && Present(entries, key)
    ensures Present(Step(entries, op, c), key)
  {
    var e := Find(entries, key).value;
    assert e in Without(entries, op.key);
    assert e in Step(entries, op, c);
  }

  /** The entries a Put makes, before the surplus is evicted. */
  function Full(entries: Entries, op: Op, c: Config): Entries
    requires op.Put?
  {
    Without(entries, op.key) + [Entry(op.key, op.now + c.ttl, op.values)]
  }

  /** A Put of another key removes `key` only by evicting it as the least recently used. */
  lemma PutEvictsTheFirst(entries: Entries, op: Op, key: Key, c: Config)
    requires |entries| <= c.maxEntries && op.Put? && op.key != key
    requires Present(entries, key) && !Present(Trimmed(Full(entries, op, c), c.maxEntries), key)
    ensures var full := Full(entries, op, c);
      |full| == c.maxEntries + 1 && full[0].key == key && Trimmed(full, c.maxEntries) == full[1..]
  {
    var e := Find(entries, key).value;
    assert e in Without(entries, op.key);
    assert e in Full(entries, op, c);
    TrimmedLosesTheFirst(Full(entries, op, c), c.maxEntries, e);
  }

  lemma EvictedByOthers(ops: seq<Op>, key: Key, c: Config)
    requires ops != [] && ops[|ops| - 1].Put?
    requires var full := Full(After(ops[..|ops| - 1], c), ops[|ops| - 1], c);
      |full| == c.maxEntries + 1 && full[0].key == key && After(ops, c) == full[1..]
    ensures |UsedSince(ops, key, c)| >= c.maxEntries
  {
    StepInOrder(ops, c);
    EntriesAreStored(ops, c);
    OthersUsedSince(ops, Full(After(ops[..|ops| - 1], c), ops[|ops| - 1], c), c);
  }

  lemma TrimmedLosesTheFirst(full: Entries, maxEntries: nat, e: Entry)
    requires |full| <= maxEntries + 1 && e in full && !Present(Trimmed(full, maxEntries), e.key)
    ensures full[0] == e && |full| == maxEntries + 1 && Trimmed(full, maxEntries) == full[1..]
  {
    var kept := Trimmed(full, maxEntries);
    assert e !in kept;
  }

  /** All but the first of entries in the order of use have been used since the first. */
  lemma OthersUsedSince(ops: seq<Op>, full: Entries, c: Config)
    requires full != [] && InOrder(full, Rank(ops, c)) && forall e :: e in full[1..] ==> Stored(ops, e, c)
    ensures |UsedSince(ops, full[0].key, c)| >= |full| - 1
  {
    var others := full[1..];
    forall x | x in others ensures x.key in UsedSince(ops, full[0].key, c) {
      var i :| 0 <= i < |others| && others[i] == x;
      assert full[i + 1] == x && Rank(ops, c)(full[0].key) < Rank(ops, c)(full[i + 1].key);
      assert ops[LastPut(ops, x.key).value].key == x.key;
    }
    assert forall i :: 0 <= i < |others| ==> others[i] == full[i + 1];
    KeysAreAsMany(others, Rank(ops, c));
    SubsetIsSmaller(Keys(others), UsedSince(ops, full[0].key, c));
  }

  /** Before the surplus is evicted the entries are in the order of their last use as well. */
  lemma StepInOrder(ops: seq<Op>, c: Config)
    requires ops != [] && ops[|ops| - 1].Put?
    ensures var op := ops[|ops| - 1];
      InOrder(Full(After(ops[..|ops| - 1], c), op, c), Rank(ops, c))
  {
    var rest, op := ops[..|ops| - 1], ops[|ops| - 1];
    EntriesInOrderOfUse(rest, c);
    WithoutInOrder(After(rest, c), op.key, Rank(rest, c), Rank(ops, c));
    AddedLast(Without(After(rest, c), op.key), op.key, Rank(ops, c));
  }

  ghost function Keys(entries: Entries): set<Key> {
    set e | e in entries :: e.key
  }

  lemma {:induction false} KeysAreAsMany(entries: Entries, rank: Key -> nat)
    requires InOrder(entries, rank)
    ensures |Keys(entries)| == |entries|
  {
    if entries != [] {
      var rest, last := entries[..|entries| - 1], entries[|entries| - 1];
      KeysAreAsMany(rest, rank);
      assert entries == rest + [last];
      assert Keys(entries) == Keys(rest) + {last.key};
      assert last.key !in Keys(rest);
    } else {
      assert Keys(entries) == {};
    }
  }

  /** A lookup hits exactly what is stored and has not expired: as long as the latest Put of the key was
      not seen expired and fewer than `maxEntries` other keys were used since the key's own last use, its
      value is returned until the time to live has passed, and not from then on. */
  lemma StoredIsHitUntilItExpires(ops: seq<Op>, key: Key, now: real, c: Config)
    requires LastPut(ops, key).Some? && c.maxEntries > 0
    requires !SeenExpired(ops, key, c) && |UsedSince(ops, key, c)| < c.maxEntries
    ensures var put := ops[LastPut(ops, key).value];
      HitOf(After(ops, c), key, now) == if now < put.now + c.ttl then Some(put.values) else None
  {
    OnlyExpiryOrEvictionLoses(ops, key, c);
    EntriesAreStored(ops, c);
    assert Stored(ops, Find(After(ops, c), key).value, c);
  }
}
