/** The read cache of a device: it answers repeated reads without calling the backend again. */
module ValueCache {
  import opened Wrappers
  import opened Clock
  import opened LevelCodec
  import opened ParamsetKeys

  const MAX_CACHE_AGE: nat := 10

  datatype Key = Key(channel: string, paramset: ParamsetKey, parameter: string)

  /** What a cache entry can hold: a value, or the mark of a failed read. */
  datatype Cached = Value(v: Val) | NoValue

  datatype CacheEntry = CacheEntry(value: Cached, refreshedAt: int)

  /** What the backend does when it is asked: for VALUES one value, for other paramsets all of them; or it raises. */
  datatype Answer = Failed | Single(v: Val) | Paramset(values: map<string, Val>)

  /** A call of the backend, what it answered, and the keys it refreshed. */
  datatype Call = Call(key: Key, direct: bool, startedAt: int, finishedAt: int, answer: Answer, filled: set<Key>)

  /** What the backend said about a key when it was asked for `key`: nothing if it failed. */
  predicate Said(key: Key, answer: Answer, k: Key, c: Cached) {
    match answer
    case Failed => k == key && c == NoValue
    case Single(v) => k == key && c == Value(v)
    case Paramset(values) =>
      k == key.(parameter := k.parameter) && k.parameter in values && c == Value(values[k.parameter])
  }

  /** Call `i` is the last one that refreshed the key. */
  predicate LastFilled(calls: seq<Call>, i: int, k: Key) {
    0 <= i < |calls| && k in calls[i].filled && forall j :: i < j < |calls| ==> k !in calls[j].filled
  }

  /** The entry of the key is what the last call that refreshed it said, stamped with the end of that call. */
  ghost predicate Remembered(cache: map<Key, CacheEntry>, calls: seq<Call>, k: Key)
    requires k in cache
  {
    exists i :: LastFilled(calls, i, k) &&
      cache[k].refreshedAt == calls[i].finishedAt && Said(calls[i].key, calls[i].answer, k, cache[k].value)
  }

  /** What the caller gets: None stands for NO_CACHE_ENTRY. */
  function Answered(c: Cached): Option<Val> {
    match c case NoValue => None case Value(v) => Some(v)
  }

  /** The entries an answer leads to. */
  function Entries(key: Key, answer: Answer): map<Key, Cached> {
    match answer
    case Failed => map[key := NoValue]
    case Single(v) => map[key := Value(v)]
    case Paramset(values) =>
      map k | k in (set p | p in values :: key.(parameter := p)) :: Value(values[k.parameter])
  }

  predicate Fits(key: Key, answer: Answer) { !answer.Failed? ==> (answer.Single? <==> key.paramset == Values) }

  function Stamped(entries: map<Key, Cached>, at: int): map<Key, CacheEntry> {
    map k | k in entries :: CacheEntry(entries[k], at)
  }

  lemma OldEnough(then_: int, now: int)
    requires INIT_TIME < then_ <= now && !ChangedWithin(then_, now, MAX_CACHE_AGE)
    ensures now - then_ >= MAX_CACHE_AGE * SECOND
  {
    assert AgeSeconds(now, then_) <= (now - then_) / SECOND;
  }

  /** An entry of a day and five seconds counts as fresh. */
  lemma FreshAfterADay(then_: int)
    requires INIT_TIME < then_
    ensures ChangedWithin(then_, then_ + DAY + 5 * SECOND, MAX_CACHE_AGE)
  {
    assert AgeSeconds(then_ + DAY + 5 * SECOND, then_) == 5;
  }

  /** A read that goes to the backend without being forced to comes at least ten seconds after every earlier call that
      refreshed its key, whether that call delivered a value or failed. */
  ghost predicate Throttled(calls: seq<Call>) {
    forall j :: 0 <= j < |calls| && !calls[j].direct ==> Rested(calls[..j], calls[j].key, calls[j].startedAt)
  }

  /** At `now`, every call that refreshed the key is ten seconds old. */
  ghost predicate Rested(calls: seq<Call>, key: Key, now: int) {
    forall i :: 0 <= i < |calls| && key in calls[i].filled ==> now >= calls[i].finishedAt + 10 * SECOND
  }

  lemma ThrottledAppend(calls: seq<Call>, call: Call)
    requires Throttled(calls) && (call.direct || Rested(calls, call.key, call.startedAt))
    ensures Throttled(calls + [call])
  {
    var longer := calls + [call];
    assert longer[..|calls|] == calls;
    assert forall j :: 0 <= j < |calls| ==> longer[..j] == calls[..j];
  }

  class ValueCache {
    var cache: map<Key, CacheEntry>

    ghost var calls: seq<Call>
    ghost var time: int

    ghost predicate Valid()
      reads this
    {
      && Throttled(calls)
      && (forall i :: 0 <= i < |calls| ==> forall k <- calls[i].filled ::
            k in cache && calls[i].finishedAt <= cache[k].refreshedAt)
      && (forall k <- cache :: INIT_TIME < cache[k].refreshedAt <= time)
      && (forall i :: 0 <= i < |calls| && calls[i].key.paramset == Values ==> calls[i].key in calls[i].filled)
      && (forall k <- cache :: Remembered(cache, calls, k))
    }

    constructor ()
      ensures Valid() && calls == []
    {
      cache, calls, time := map[], [], INIT_TIME;
    }

    /** Whether the device cache has a valid entry. */
    predicate Fresh(key: Key, now: int)
      reads `cache
    {
      key in cache && ChangedWithin(cache[key].refreshedAt, now, MAX_CACHE_AGE)
    }

    /** An answer given from the device cache is less than ten seconds old exactly if it is less than a day old. */
    lemma FreshIsRecent(key: Key, now: int)
      requires Valid() && time <= now && Fresh(key, now)
      ensures now - cache[key].refreshedAt < MAX_CACHE_AGE * SECOND <==> now - cache[key].refreshedAt < DAY
    {
      if now - cache[key].refreshedAt < DAY {
        WithinADay(now, cache[key].refreshedAt, MAX_CACHE_AGE);
      }
    }

    /** `get_value`, from taking the semaphore at `now` to leaving it at `later`. `central` is what the central cache
        has, `answer` what the backend will say if it is called. */
    method GetValue(key: Key, direct: bool, central: Option<Val>, answer: Answer, now: int, later: int)
      returns (value: Option<Val>)
      requires Valid() && INIT_TIME < now <= later && time <= now && Fits(key, answer)
      modifies this
      ensures Valid() && time == later
      ensures !direct && key.paramset == Values && central.Some? ==>
        value == central && cache == old(cache) && calls == old(calls)
      ensures !direct && !(key.paramset == Values && central.Some?) && old(Fresh(key, now)) ==>
        && cache == old(cache) && calls == old(calls)
        && value == (match cache[key].value case Value(v) => Some(v) case NoValue => None)
        && Remembered(cache, calls, key)
      ensures direct || !((key.paramset == Values && central.Some?) || old(Fresh(key, now))) ==>
        && |calls| == |old(calls)| + 1 && calls[..|old(calls)|] == old(calls)
        && calls[|old(calls)|].(filled := {}) == Call(key, direct, now, later, answer, {})
        && (answer.Failed? ==> value == None && cache == old(cache)[key := CacheEntry(NoValue, later)])
        && (answer.Single? ==>
              value == Some(answer.v) && cache == old(cache)[key := CacheEntry(Value(answer.v), later)])
        && (answer.Paramset? ==>
              && value == Some(if key.parameter in answer.values then answer.values[key.parameter] else Null)
              && (forall p <- answer.values ::
                    var k := Key(key.channel, key.paramset, p);
                    k in cache && cache[k] == CacheEntry(Value(answer.values[p]), later))
              && (forall k: Key
                    | k.channel != key.channel || k.paramset != key.paramset || k.parameter !in answer.values ::
                    (k in cache <==> k in old(cache)) && (k in cache ==> cache[k] == old(cache)[k])))
    {
      hide ChangedWithin, Remembered, Throttled;
      if !direct {
        if key.paramset == Values && central.Some? {
          time := later;
          return central;
        }
        if key in cache && ChangedWithin(cache[key].refreshedAt, now, MAX_CACHE_AGE) {
          time := later;
          return Answered(cache[key].value);
        }
        if key in cache {
          OldEnough(cache[key].refreshedAt, now);
        }
      }
      value := Load(key, direct, answer, now, later);
    }

    /** The part of `get_value` that calls the backend. */
    method Load(key: Key, direct: bool, answer: Answer, now: int, later: int) returns (value: Option<Val>)
      requires Valid() && INIT_TIME < now <= later && time <= now && Fits(key, answer)
      requires direct || Rested(calls, key, now)
      modifies this
      ensures Valid() && time == later
      ensures |calls| == |old(calls)| + 1 && calls[..|old(calls)|] == old(calls)
      ensures calls[|old(calls)|].(filled := {}) == Call(key, direct, now, later, answer, {})
      ensures answer.Failed? ==> value == None && cache == old(cache)[key := CacheEntry(NoValue, later)]
      ensures answer.Single? ==>
        value == Some(answer.v) && cache == old(cache)[key := CacheEntry(Value(answer.v), later)]
      ensures answer.Paramset? ==>
        && value == Some(if key.parameter in answer.values then answer.values[key.parameter] else Null)
        && (forall p <- answer.values ::
              var k := Key(key.channel, key.paramset, p);
              k in cache && cache[k] == CacheEntry(Value(answer.values[p]), later))
        && (forall k: Key | k.channel != key.channel || k.paramset != key.paramset || k.parameter !in answer.values ::
              (k in cache <==> k in old(cache)) && (k in cache ==> cache[k] == old(cache)[k]))
    {
      hide Entries, Said, Stamped, Remembered, LastFilled, Throttled;
      time := later;
      var entries := Entries(key, answer);
      ghost var call := Call(key, direct, now, later, answer, entries.Keys);
      ThrottledAppend(calls, call);
      EntriesAre(key, answer, cache, later);
      CallKeeps(cache, calls, call);
      StampedAt(cache, entries, later);
      AddEntries(entries, later);
      calls := calls + [call];
      return if key in entries then Answered(entries[key]) else Some(Null);
    }

    /** The loop over `_add_entry_to_device_cache`. */
    method AddEntries(entries: map<Key, Cached>, at: int)
      modifies `cache
      ensures cache == old(cache) + Stamped(entries, at)
    {
      var todo := entries.Keys;
      while todo != {}
        invariant todo <= entries.Keys
        invariant cache == old(cache) + Stamped(entries - todo, at)
        decreases todo
      {
        var k :| k in todo;
        cache := cache[k := CacheEntry(entries[k], at)];
        todo := todo - {k};
      }
      assert entries - {} == entries;
    }
  }

  /** The key is one of the paramset that was read for `key`. */
  predicate InParamset(key: Key, answer: Answer, k: Key) {
    answer.Paramset? && k.channel == key.channel && k.paramset == key.paramset && k.parameter in answer.values
  }

  lemma StampedAt(cache: map<Key, CacheEntry>, entries: map<Key, Cached>, at: int)
    ensures var after := cache + Stamped(entries, at);
      && after.Keys == cache.Keys + entries.Keys
      && forall k <- after :: if k in entries then after[k].refreshedAt == at else after[k] == cache[k]
  {
  }

  /** What storing an answer makes of the cache. */
  lemma EntriesAre(key: Key, answer: Answer, cache: map<Key, CacheEntry>, at: int)
    requires Fits(key, answer)
    ensures var after := cache + Stamped(Entries(key, answer), at);
      && (answer.Failed? ==> after == cache[key := CacheEntry(NoValue, at)])
      && (answer.Single? ==> after == cache[key := CacheEntry(Value(answer.v), at)])
      && (answer.Paramset? ==> forall k ::
            && (k in after <==> k in cache || InParamset(key, answer, k))
            && (k in after ==> after[k] == if InParamset(key, answer, k)
                                           then CacheEntry(Value(answer.values[k.parameter]), at) else cache[k]))
    ensures forall k :: k in Entries(key, answer) <==>
      (if answer.Paramset? then InParamset(key, answer, k) else k == key)
    ensures key in Entries(key, answer) <==> (answer.Paramset? ==> key.parameter in answer.values)
    ensures answer.Failed? ==> Answered(Entries(key, answer)[key]) == None
    ensures answer.Single? ==> Answered(Entries(key, answer)[key]) == Some(answer.v)
    ensures answer.Paramset? && key.parameter in answer.values ==>
      Answered(Entries(key, answer)[key]) == Some(answer.values[key.parameter])
    ensures key.paramset == Values ==> key in Entries(key, answer)
  {
  }

  /** A call keeps it that every entry is what the last call that refreshed it said. */
  lemma CallKeeps(cache: map<Key, CacheEntry>, calls: seq<Call>, call: Call)
    requires forall k <- cache :: Remembered(cache, calls, k)
    requires call.filled == Entries(call.key, call.answer).Keys
    ensures var after := cache + Stamped(Entries(call.key, call.answer), call.finishedAt);
      forall k <- after :: Remembered(after, calls + [call], k)
  {
    hide Entries, Said;
    EntriesSaid(call.key, call.answer);
    var entries := Entries(call.key, call.answer);
    var after, longer := cache + Stamped(entries, call.finishedAt), calls + [call];
    forall k <- after ensures Remembered(after, longer, k) {
      if k in entries {
        assert LastFilled(longer, |calls|, k);
      } else {
        var i :| LastFilled(calls, i, k) &&
          cache[k].refreshedAt == calls[i].finishedAt && Said(calls[i].key, calls[i].answer, k, cache[k].value);
        assert LastFilled(longer, i, k);
      }
    }
  }

  /** The entries are exactly what the backend said. */
  lemma EntriesSaid(key: Key, answer: Answer)
    ensures forall k, c :: Said(key, answer, k, c) <==> k in Entries(key, answer) && Entries(key, answer)[k] == c
  {
  }
}
