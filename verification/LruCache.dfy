/**
 The least-recently-used cache with expiry. Its JavaScript `Map` keeps insertion order, which the code turns into
 recency order by deleting and re-inserting on every use. The clock is a parameter and need not be monotonic.
 */
module LruCaches {

  import opened Options
  import opened Collections

  datatype Entry<T> = Entry(value: T, expiresAt: real)

  /** An insertion-ordered map. */
  datatype Contents<T> = Contents(order: seq<string>, entries: map<string, Entry<T>>)

  function Empty<T>(): Contents<T> { Contents([], map[]) }

  datatype Operation<T> =
    | Get(key: string, now: real)
    | Set(key: string, value: T, now: real)
    | Clear

  datatype Settings = Settings(ttl: real, maxSize: int)
  {
    /** A cache of size zero or less still holds one entry. */
    function Capacity(): nat { if maxSize < 1 then 1 else maxSize }
  }

  // ---------- the transition functions ----------

  function Without(order: seq<string>, key: string): seq<string>
  {
    if order == [] then []
    else if order[0] == key then order[1..]
    else [order[0]] + Without(order[1..], key)
  }

  function Deleted<T>(c: Contents<T>, key: string): Contents<T>
  {
    Contents(Without(c.order, key), c.entries - {key})
  }

  /** Setting a key that is absent: it goes last. */
  function Appended<T>(c: Contents<T>, key: string, entry: Entry<T>): Contents<T>
  {
    Contents(c.order + [key], c.entries[key := entry])
  }

  /** Reading a key: nothing, a drop because it expired, or a hit, which makes it the last one. */
  function AfterGet<T>(c: Contents<T>, key: string, now: real): (Contents<T>, Option<T>)
  {
    if key !in c.entries then (c, None)
    else
      var entry := c.entries[key];
      if now >= entry.expiresAt then (Deleted(c, key), None)
      else (Appended(Deleted(c, key), key, entry), Some(entry.value))
  }

  function Evicted<T>(c: Contents<T>, maxSize: int): Contents<T>
  {
    if |c.order| >= maxSize && c.order != [] then Deleted(c, c.order[0]) else c
  }

  function AfterSet<T>(c: Contents<T>, settings: Settings, key: string, value: T, now: real): Contents<T>
  {
    Appended(Evicted(Deleted(c, key), settings.maxSize), key, Entry(value, now + settings.ttl))
  }

  function Step<T>(c: Contents<T>, settings: Settings, op: Operation<T>): Contents<T>
  {
    match op
    case Get(key, now) => AfterGet(c, key, now).0
    case Set(key, value, now) => AfterSet(c, settings, key, value, now)
    case Clear => Empty()
  }

  function Run<T>(settings: Settings, ops: seq<Operation<T>>): Contents<T>
  {
    if ops == [] then Empty()
    else Step(Run(settings, ops[..|ops| - 1]), settings, ops[|ops| - 1])
  }

  // ---------- what a history says about a key ----------

  /** The key an operation uses: the one it sets, or the one it finds. */
  function Touched<T>(c: Contents<T>, op: Operation<T>): Option<string>
  {
    match op
    case Get(key, now) => if AfterGet(c, key, now).1.Some? then Some(key) else None
    case Set(key, _, _) => Some(key)
    case Clear => None
  }

  /** The operation drops the key: it clears the cache or finds the entry expired. */
  predicate Drops<T>(c: Contents<T>, op: Operation<T>, key: string)
  {
    op.Clear? || (op.Get? && op.key == key && key in c.entries && AfterGet(c, key, op.now).1.None?)
  }

  /** The other keys used since the key itself was last used. */
  function UsedSince<T>(settings: Settings, ops: seq<Operation<T>>, key: string): set<string>
  {
    if ops == [] then {} else
    var front := ops[..|ops| - 1];
    match Touched(Run(settings, front), ops[|ops| - 1])
    case Some(k) => if k == key then {} else UsedSince(settings, front, key) + {k}
    case None => UsedSince(settings, front, key)
  }

  /** The key was used, and not dropped since. */
  predicate InUse<T>(settings: Settings, ops: seq<Operation<T>>, key: string)
  {
    ops != [] &&
    var front, last := ops[..|ops| - 1], ops[|ops| - 1];
    var c := Run(settings, front);
    Touched(c, last) == Some(key) || (InUse(settings, front, key) && !Drops(c, last, key))
  }

  /** The other keys used since the key itself was last used, and not dropped since they were. */
  function LiveSince<T>(settings: Settings, ops: seq<Operation<T>>, key: string): set<string>
  {
    set k | k in UsedSince(settings, ops, key) && InUse(settings, ops, k)
  }

  /** At no moment since the key was last used were there as many of them as the cache can hold. */
  predicate NeverCrowded<T>(settings: Settings, ops: seq<Operation<T>>, key: string)
  {
    |LiveSince(settings, ops, key)| < settings.Capacity() &&
    (ops != [] ==>
      var front, last := ops[..|ops| - 1], ops[|ops| - 1];
      Touched(Run(settings, front), last) == Some(key) || NeverCrowded(settings, front, key))
  }

  /** Value and time of the last `set` of the key. */
  function LatestSet<T>(ops: seq<Operation<T>>, key: string): Option<(T, real)>
  {
    if ops == [] then None else
    var last := ops[|ops| - 1];
    if last.Set? && last.key == key then Some((last.value, last.now)) else LatestSet(ops[..|ops| - 1], key)
  }

  /** No operation dropped anything. */
  predicate DropFree<T>(settings: Settings, ops: seq<Operation<T>>)
  {
    ops == [] ||
    var front, last := ops[..|ops| - 1], ops[|ops| - 1];
    DropFree(settings, front) && !last.Clear? && (last.Get? ==> !Drops(Run(settings, front), last, last.key))
  }

  // ---------- orders ----------

  ghost predicate Ordered(order: seq<string>, before: (string, string) -> bool)
  {
    forall i, j :: 0 <= i < j < |order| ==> before(order[i], order[j])
  }

  /** Taking a key out of a list without repetitions. */
  lemma {:induction false} WithoutRemoves(order: seq<string>, key: string)
    requires Distinct(order)
    ensures forall k :: k in Without(order, key) <==> k in order && k != key
    ensures |Without(order, key)| == |order| - if key in order then 1 else 0
  {
    if order == [] {
    } else {
      assert order == [order[0]] + order[1..];
      if order[0] == key {
        assert key !in order[1..];
      } else {
        WithoutRemoves(order[1..], key);
      }
    }
  }

  /** The first of a list comes before every other element. */
  lemma FirstIsBefore(order: seq<string>, before: (string, string) -> bool, k: string)
    requires Ordered(order, before) && k in order && k != order[0]
    ensures before(order[0], k)
  {
    var j :| 0 <= j < |order| && order[j] == k;
    assert before(order[0], order[j]);
  }

  lemma TailKeepsOrder(order: seq<string>, before: (string, string) -> bool)
    requires order != [] && Distinct(order) && Ordered(order, before)
    ensures Distinct(order[1..]) && Ordered(order[1..], before) && order[0] !in order[1..]
  {}

  lemma ConsKeepsOrder(first: string, rest: seq<string>, before: (string, string) -> bool)
    requires Distinct(rest) && Ordered(rest, before) && forall k :: k in rest ==> k != first && before(first, k)
    ensures Distinct([first] + rest) && Ordered([first] + rest, before)
  {
    var order := [first] + rest;
    forall i, j | 0 <= i < j < |order| ensures order[i] != order[j] && before(order[i], order[j]) {
      assert order[j] in rest;
    }
  }

  /** It keeps every order the list was in. */
  lemma {:induction false} WithoutKeepsOrder(order: seq<string>, key: string, before: (string, string) -> bool)
    requires Distinct(order) && Ordered(order, before)
    ensures Ordered(Without(order, key), before) && Distinct(Without(order, key))
  {
    hide Distinct, Ordered;
    if order == [] {
      assert Without(order, key) == order;
    } else {
      var tail := order[1..];
      TailKeepsOrder(order, before);
      if order[0] != key {
        WithoutKeepsOrder(tail, key, before);
        WithoutRemoves(tail, key);
        forall k | k in Without(tail, key) ensures k != order[0] && before(order[0], k) {
          FirstIsBefore(order, before, k);
        }
        ConsKeepsOrder(order[0], Without(tail, key), before);
      }
    }
  }

  ghost predicate Sound<T>(c: Contents<T>)
  {
    Distinct(c.order) && forall k :: k in c.order <==> k in c.entries
  }

  /** The first was last used before the second. */
  ghost function UsedBefore<T>(settings: Settings, ops: seq<Operation<T>>): (string, string) -> bool
  {
    (a, b) => b in UsedSince(settings, ops, a) && a !in UsedSince(settings, ops, b)
  }

  ghost predicate EntryIsLatest<T>(settings: Settings, ops: seq<Operation<T>>, key: string)
  {
    key in Run(settings, ops).entries ==>
      match LatestSet(ops, key)
      case Some((value, at)) => Run(settings, ops).entries[key] == Entry(value, at + settings.ttl)
      case None => false
  }

  // ---------- every step keeps the recency order ----------

  ghost predicate ByRecency<T>(settings: Settings, ops: seq<Operation<T>>)
  {
    Sound(Run(settings, ops)) && Ordered(Run(settings, ops).order, UsedBefore(settings, ops))
  }

  lemma DeletedIsSound<T>(c: Contents<T>, key: string, before: (string, string) -> bool)
    requires Sound(c) && Ordered(c.order, before)
    ensures Sound(Deleted(c, key)) && Ordered(Deleted(c, key).order, before)
    ensures forall k :: k in Deleted(c, key).order <==> k in c.order && k != key
    ensures |Deleted(c, key).order| == |c.order| - if key in c.order then 1 else 0
  {
    WithoutRemoves(c.order, key);
    WithoutKeepsOrder(c.order, key, before);
  }

  /** What an operation leaves before the key it touched is put last. */
  function Survivors<T>(c: Contents<T>, settings: Settings, op: Operation<T>): Contents<T>
  {
    match op
    case Get(key, now) => if key in c.entries then Deleted(c, key) else c
    case Set(key, _, _) => Evicted(Deleted(c, key), settings.maxSize)
    case Clear => Empty()
  }

  lemma StepAppends<T>(c: Contents<T>, settings: Settings, op: Operation<T>)
    ensures var mid, c' := Survivors(c, settings, op), Step(c, settings, op);
      match Touched(c, op)
      case Some(k) => k in c'.entries && c' == Appended(mid, k, c'.entries[k])
      case None => c' == mid
  {}

  lemma SurvivorsAreSound<T>(c: Contents<T>, settings: Settings, op: Operation<T>, before: (string, string) -> bool)
    requires Sound(c) && Ordered(c.order, before)
    ensures var mid := Survivors(c, settings, op);
      && Sound(mid) && Ordered(mid.order, before)
      && (forall k :: k in mid.entries ==> k in c.entries && mid.entries[k] == c.entries[k])
      && (Touched(c, op).Some? ==> Touched(c, op).value !in mid.entries)
  {
    hide Sound, Ordered, Distinct, Without;
    if op.Clear? {
      NothingIsSound<T>(before);
    } else {
      DeletedIsSound(c, op.key, before);
      var d := Deleted(c, op.key);
      if d.order != [] { DeletedIsSound(d, d.order[0], before); }
    }
  }

  lemma NothingIsSound<T>(before: (string, string) -> bool)
    ensures Sound(Empty<T>()) && Ordered([], before)
  {}

  /** The key touched last comes last. */
  lemma AppendedIsSound<T>(mid: Contents<T>, key: string, entry: Entry<T>, before: (string, string) -> bool)
    requires Sound(mid) && Ordered(mid.order, before) && key !in mid.entries
    requires forall k :: k in mid.order ==> before(k, key)
    ensures Sound(Appended(mid, key, entry)) && Ordered(Appended(mid, key, entry).order, before)
  {
    assert forall k :: k in mid.order ==> k != key;
  }

  /** An operation changes nothing in the order of the keys it does not touch. */
  lemma OrderSurvives<T>(settings: Settings, ops: seq<Operation<T>>, order: seq<string>)
    requires ops != []
    requires Ordered(order, UsedBefore(settings, ops[..|ops| - 1]))
    requires var t := Touched(Run(settings, ops[..|ops| - 1]), ops[|ops| - 1]); t.Some? ==> t.value !in order
    ensures Ordered(order, UsedBefore(settings, ops))
  {
    var before, after := UsedBefore(settings, ops[..|ops| - 1]), UsedBefore(settings, ops);
    forall i, j | 0 <= i < j < |order| ensures after(order[i], order[j]) {
      assert before(order[i], order[j]);
    }
  }

  lemma {:induction false} RunIsByRecency<T>(settings: Settings, ops: seq<Operation<T>>)
    ensures ByRecency(settings, ops)
  {
    hide Sound, Ordered, Step, Survivors, Touched;
    if ops == [] {
      NothingIsSound<T>(UsedBefore(settings, ops));
    } else {
      var front, last := ops[..|ops| - 1], ops[|ops| - 1];
      RunIsByRecency(settings, front);
      var c := Run(settings, front);
      var mid := Survivors(c, settings, last);
      StepAppends(c, settings, last);
      SurvivorsAreSound(c, settings, last, UsedBefore(settings, front));
      SoundMembers(mid);
      OrderSurvives(settings, ops, mid.order);
      match Touched(c, last)
      case Some(k) => AppendedIsSound(mid, k, Step(c, settings, last).entries[k], UsedBefore(settings, ops));
      case None =>
    }
  }

  lemma SoundMembers<T>(c: Contents<T>)
    requires Sound(c)
    ensures forall k :: k in c.order <==> k in c.entries
  {}

  // ---------- the promises of the cache ----------

  /** Map order is recency order: of two kept keys, the later one is the one used since the other was. */
  lemma OrderIsRecency<T>(settings: Settings, ops: seq<Operation<T>>, i: nat, j: nat)
    requires i < |Run(settings, ops).order| && j < |Run(settings, ops).order|
    ensures var order := Run(settings, ops).order;
      order[j] in UsedSince(settings, ops, order[i]) <==> i < j
  {
    RunIsByRecency(settings, ops);
    NotUsedSinceItself(settings, ops, Run(settings, ops).order[i]);
    var order, before := Run(settings, ops).order, UsedBefore(settings, ops);
    assert i < j ==> before(order[i], order[j]);
    assert j < i ==> before(order[j], order[i]);
  }

  lemma {:induction false} NotUsedSinceItself<T>(settings: Settings, ops: seq<Operation<T>>, key: string)
    ensures key !in UsedSince(settings, ops, key)
  {
    if ops == [] {} else { NotUsedSinceItself(settings, ops[..|ops| - 1], key); }
  }

  /** An entry holds the value of the latest `set` of its key, to expire `ttl` after it. */
  lemma {:induction false} EntriesAreLatest<T>(settings: Settings, ops: seq<Operation<T>>, key: string)
    ensures EntryIsLatest(settings, ops, key)
  {
    if ops == [] {
    } else {
      EntriesAreLatest(settings, ops[..|ops| - 1], key);
    }
  }

  /** A hit returns the value of the latest `set` of that key, strictly before that set's time plus `ttl`. */
  lemma HitsAreFresh<T>(settings: Settings, ops: seq<Operation<T>>, key: string, now: real)
    ensures var hit := AfterGet(Run(settings, ops), key, now).1;
      hit.Some? ==>
        LatestSet(ops, key).Some? && var (value, at) := LatestSet(ops, key).value;
        hit.value == value && now < at + settings.ttl
  {
    EntriesAreLatest(settings, ops, key);
  }

  lemma {:induction false} KeysOfDistinct(order: seq<string>)
    requires Distinct(order)
    ensures |set k | k in order| == |order|
  {
    if order == [] {
    } else {
      KeysOfDistinct(order[1..]);
      assert (set k | k in order) == (set k | k in order[1..]) + {order[0]};
    }
  }

  lemma SoundSize<T>(c: Contents<T>)
    requires Sound(c)
    ensures |c.entries| == |c.order|
  {
    KeysOfDistinct(c.order);
    assert c.entries.Keys == set k | k in c.order;
  }

  lemma SurvivorsLeaveRoom<T>(c: Contents<T>, settings: Settings, op: Operation<T>, before: (string, string) -> bool)
    requires Sound(c) && Ordered(c.order, before) && |c.order| <= settings.Capacity()
    ensures |Survivors(c, settings, op).order| + (if Touched(c, op).Some? then 1 else 0) <= settings.Capacity()
  {
    hide Sound, Ordered, Distinct, Without;
    if !op.Clear? {
      SoundMembers(c);
      DeletedIsSound(c, op.key, before);
      var d := Deleted(c, op.key);
      if d.order != [] { DeletedIsSound(d, d.order[0], before); }
    }
  }

  /** The cache never holds more than its capacity. */
  lemma {:induction false} SizeIsBounded<T>(settings: Settings, ops: seq<Operation<T>>)
    ensures var c := Run(settings, ops); |c.entries| == |c.order| <= settings.Capacity()
  {
    hide Sound, Ordered, Step, Survivors, Touched;
    RunIsByRecency(settings, ops);
    SoundSize(Run(settings, ops));
    if ops == [] {
    } else {
      var front, last := ops[..|ops| - 1], ops[|ops| - 1];
      SizeIsBounded(settings, front);
      RunIsByRecency(settings, front);
      SurvivorsLeaveRoom(Run(settings, front), settings, last, UsedBefore(settings, front));
      StepAppends(Run(settings, front), settings, last);
    }
  }

  /** After a `set` the cache is over its own limit exactly when that is below one: the new entry always stays. */
  lemma OverLimitIffBelowOne<T>(settings: Settings, ops: seq<Operation<T>>)
    requires ops != [] && ops[|ops| - 1].Set?
    ensures ops[|ops| - 1].key in Run(settings, ops).entries
    ensures |Run(settings, ops).entries| > settings.maxSize <==> settings.maxSize < 1
  {
    SizeIsBounded(settings, ops);
    assert ops[|ops| - 1].key in Run(settings, ops).entries;
  }

  /** When an entry is evicted, as many other keys were used since it was, and are in use, as the cache can hold. */
  lemma EvictedWasLeastRecent<T>(settings: Settings, ops: seq<Operation<T>>)
    requires ops != [] && ops[|ops| - 1].Set?
    ensures var d := Deleted(Run(settings, ops[..|ops| - 1]), ops[|ops| - 1].key);
      |d.order| >= settings.Capacity() ==> |LiveSince(settings, ops, d.order[0])| >= settings.Capacity()
  {
    hide Sound, UsedSince, InUse, Run, Without, Ordered, Distinct;
    var front, key := ops[..|ops| - 1], ops[|ops| - 1].key;
    var c, before := Run(settings, front), UsedBefore(settings, front);
    RunIsByRecency(settings, front);
    DeletedIsSound(c, key, before);
    var d := Deleted(c, key);
    if |d.order| >= settings.Capacity() {
      var others, live := d.entries.Keys - {d.order[0]} + {key}, LiveSince(settings, ops, d.order[0]);
      SoundSize(d);
      SoundMembers(d);
      forall k | k in others ensures k in live {
        SetUses(settings, ops, d.order[0], k);
        if k != key {
          FirstIsBefore(d.order, before, k);
          KeptKeysAreInUse(settings, front, k);
        }
      }
      SubsetSize(others, live);
    }
  }

  lemma SetUses<T>(settings: Settings, ops: seq<Operation<T>>, key: string, k: string)
    requires ops != [] && ops[|ops| - 1].Set? && ops[|ops| - 1].key != key
    ensures UsedSince(settings, ops, key) == UsedSince(settings, ops[..|ops| - 1], key) + {ops[|ops| - 1].key}
    ensures k == ops[|ops| - 1].key || InUse(settings, ops[..|ops| - 1], k) ==> InUse(settings, ops, k)
  {}

  /** A key in use is not evicted while it was never crowded. */
  lemma {:induction false} UncrowdedKeysStay<T>(settings: Settings, ops: seq<Operation<T>>, key: string)
    requires InUse(settings, ops, key) && NeverCrowded(settings, ops, key)
    ensures key in Run(settings, ops).entries
  {
    hide LiveSince;
    var front, last := ops[..|ops| - 1], ops[|ops| - 1];
    var c := Run(settings, front);
    StepAppends(c, settings, last);
    if Touched(c, last) != Some(key) {
      UncrowdedKeysStay(settings, front, key);
      if last.Set? { EvictedWasLeastRecent(settings, ops); }
    }
  }

  /** Only keys in use are kept. */
  lemma {:induction false} KeptKeysAreInUse<T>(settings: Settings, ops: seq<Operation<T>>, key: string)
    requires key in Run(settings, ops).entries
    ensures InUse(settings, ops, key)
  {
    var front, last := ops[..|ops| - 1], ops[|ops| - 1];
    var c := Run(settings, front);
    StepAppends(c, settings, last);
    if Touched(c, last) != Some(key) { KeptKeysAreInUse(settings, front, key); }
  }

  /** Whatever was used since a kept key, and is in use, is kept as well. */
  lemma {:induction false} LaterKeysAreKept<T>(settings: Settings, ops: seq<Operation<T>>, key: string, k: string)
    requires key in Run(settings, ops).entries && k in LiveSince(settings, ops, key)
    ensures k in Run(settings, ops).entries && k != key
  {
    var front, last := ops[..|ops| - 1], ops[|ops| - 1];
    var c := Run(settings, front);
    StepAppends(c, settings, last);
    NotUsedSinceItself(settings, ops, key);
    if Touched(c, last) != Some(k) {
      LaterKeysAreKept(settings, front, key, k);
      if last.Set? { FirstIsNotUsedSince(settings, front, last.key, key); }
    }
  }

  /** A kept key was never crowded. */
  lemma {:induction false} KeptKeysAreUncrowded<T>(settings: Settings, ops: seq<Operation<T>>, key: string)
    requires key in Run(settings, ops).entries
    ensures NeverCrowded(settings, ops, key)
  {
    var front, last := ops[..|ops| - 1], ops[|ops| - 1];
    var kept := Run(settings, ops).entries.Keys;
    forall k | k in LiveSince(settings, ops, key) ensures k in kept - {key} {
      LaterKeysAreKept(settings, ops, key, k);
    }
    SizeIsBounded(settings, ops);
    SubsetSize(LiveSince(settings, ops, key), kept - {key});
    StepAppends(Run(settings, front), settings, last);
    if Touched(Run(settings, front), last) != Some(key) { KeptKeysAreUncrowded(settings, front, key); }
  }

  /**
   Over every history: the cache keeps exactly the keys in use for which, at each moment since their last use, fewer
   other keys than its capacity had been used since and were in use themselves.
   */
  lemma KeepsExactly<T>(settings: Settings, ops: seq<Operation<T>>, key: string)
    ensures key in Run(settings, ops).entries <==> InUse(settings, ops, key) && NeverCrowded(settings, ops, key)
  {
    hide InUse, NeverCrowded;
    if key in Run(settings, ops).entries {
      KeptKeysAreInUse(settings, ops, key);
      KeptKeysAreUncrowded(settings, ops, key);
    } else if InUse(settings, ops, key) && NeverCrowded(settings, ops, key) {
      UncrowdedKeysStay(settings, ops, key);
    }
  }

  /** A key of which fewer other keys than the capacity were used since was never crowded. */
  lemma {:induction false} FewUsedIsUncrowded<T>(settings: Settings, ops: seq<Operation<T>>, key: string)
    requires |UsedSince(settings, ops, key)| < settings.Capacity()
    ensures NeverCrowded(settings, ops, key)
  {
    SubsetSize(LiveSince(settings, ops, key), UsedSince(settings, ops, key));
    if ops == [] {
    } else {
      var front, last := ops[..|ops| - 1], ops[|ops| - 1];
      if Touched(Run(settings, front), last) != Some(key) {
        SubsetSize(UsedSince(settings, front, key), UsedSince(settings, ops, key));
        FewUsedIsUncrowded(settings, front, key);
      }
    }
  }

  /** A key in use is not evicted while fewer other keys than the cache can hold were used since. */
  lemma RecentKeysStay<T>(settings: Settings, ops: seq<Operation<T>>, key: string)
    requires InUse(settings, ops, key) && |UsedSince(settings, ops, key)| < settings.Capacity()
    ensures key in Run(settings, ops).entries
  {
    FewUsedIsUncrowded(settings, ops, key);
    KeepsExactly(settings, ops, key);
  }

  lemma FirstIsNotUsedSince<T>(settings: Settings, ops: seq<Operation<T>>, deleted: string, key: string)
    requires key in Run(settings, ops).entries && key != deleted
    ensures var order := Deleted(Run(settings, ops), deleted).order;
      order != [] && order[0] !in UsedSince(settings, ops, key)
  {
    var c, before := Run(settings, ops), UsedBefore(settings, ops);
    RunIsByRecency(settings, ops);
    DeletedIsSound(c, deleted, before);
    var order := Deleted(c, deleted).order;
    var j :| 0 <= j < |order| && order[j] == key;
    NotUsedSinceItself(settings, ops, key);
    assert j > 0 ==> before(order[0], order[j]);
  }

  /** While nothing is dropped, every key that was used is in use. */
  lemma {:induction false} UsedKeysAreInUse<T>(settings: Settings, ops: seq<Operation<T>>, key: string, k: string)
    requires DropFree(settings, ops) && k in UsedSince(settings, ops, key)
    ensures InUse(settings, ops, k)
  {
    var front, last := ops[..|ops| - 1], ops[|ops| - 1];
    if Touched(Run(settings, front), last) != Some(k) { UsedKeysAreInUse(settings, front, key, k); }
  }

  /**
   While nothing expired or was cleared, the cache keeps exactly the keys it was asked to: those used, with fewer
   other keys than its capacity used since.
   */
  lemma KeepsTheMostRecent<T>(settings: Settings, ops: seq<Operation<T>>, key: string)
    requires DropFree(settings, ops)
    ensures key in Run(settings, ops).entries <==>
      InUse(settings, ops, key) && |UsedSince(settings, ops, key)| < settings.Capacity()
  {
    hide InUse, UsedSince, DropFree;
    KeepsExactly(settings, ops, key);
    forall k | k in UsedSince(settings, ops, key) ensures InUse(settings, ops, k) {
      UsedKeysAreInUse(settings, ops, key, k);
    }
    assert LiveSince(settings, ops, key) == UsedSince(settings, ops, key);
    if |UsedSince(settings, ops, key)| < settings.Capacity() { FewUsedIsUncrowded(settings, ops, key); }
  }

  /** Over every history: a read hits exactly when the key is kept as above and was set freshly enough. */
  lemma HitsExactly<T>(settings: Settings, ops: seq<Operation<T>>, key: string, now: real)
    ensures AfterGet(Run(settings, ops), key, now).1.Some? <==>
      && InUse(settings, ops, key) && NeverCrowded(settings, ops, key)
      && LatestSet(ops, key).Some? && now < LatestSet(ops, key).value.1 + settings.ttl
  {
    hide InUse, NeverCrowded;
    KeepsExactly(settings, ops, key);
    EntriesAreLatest(settings, ops, key);
  }

  // ---------- the code ----------

  class LruCache<T> {
    const maxSize: int
    const ttl: real
    var order: seq<string>
    var entries: map<string, Entry<T>>

    ghost function Now(): Contents<T>
      reads this
    {
      Contents(order, entries)
    }

    function Configured(): Settings { Settings(ttl, maxSize) }

    constructor (ttl: real, maxSize: int)
      ensures Now() == Empty() && Configured() == Settings(ttl, maxSize)
    {
      this.ttl, this.maxSize := ttl, maxSize;
      order, entries := [], map[];
    }

    method Delete(key: string)
      modifies this
      ensures Now() == Deleted(old(Now()), key)
    {
      order, entries := Without(order, key), entries - {key};
    }

    method Get(key: string, now: real) returns (value: Option<T>)
      modifies this
      ensures (Now(), value) == AfterGet(old(Now()), key, now)
      ensures Now() == Step(old(Now()), Configured(), Operation.Get(key, now))
    {
      if key !in entries { return None; }
      var entry := entries[key];
      if now >= entry.expiresAt {
        Delete(key);
        return None;
      }
      Delete(key);
      order, entries := order + [key], entries[key := entry];
      return Some(entry.value);
    }

    method Set(key: string, value: T, now: real)
      modifies this
      ensures Now() == Step(old(Now()), Configured(), Operation.Set(key, value, now))
    {
      Delete(key);
      if |order| >= maxSize && order != [] { Delete(order[0]); }
      order, entries := order + [key], entries[key := Entry(value, now + ttl)];
    }

    method Clear()
      modifies this
      ensures Now() == Step(old(Now()), Configured(), Operation.Clear)
    {
      order, entries := [], map[];
    }
  }

  datatype Created<T> = Created(cache: LruCache<T>) | RangeError

  /** A cache needs a positive time to live; its size defaults to 1000. */
  method Create<T>(ttl: real, maxSize: Option<int>) returns (r: Created<T>)
    ensures r.Created? <==> ttl > 0.0
    ensures r.Created? ==> fresh(r.cache) && r.cache.Now() == Empty()
    ensures r.Created? ==> r.cache.Configured() == Settings(ttl, if maxSize.Some? then maxSize.value else 1000)
  {
    if ttl <= 0.0 { return RangeError; }
    var cache := new LruCache<T>(ttl, match maxSize case Some(n) => n case None => 1000);
    return Created(cache);
  }
}
