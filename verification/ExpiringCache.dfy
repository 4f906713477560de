/** The server's in-memory cache: entries expire, and a sweeper removes expired entries in
    separate steps, loading an entry, checking it and deleting its key, between which anything may
    happen. */
module ExpiringCache {
  import opened Options

  type Key = string
  type Data = string

  /** An entry and when it was put; without a positive duration it never expires. */
  datatype Entry = Entry(data: Data, duration: int, start: int)

  predicate IsExpired(e: Entry, now: int) {
    e.duration > 0 && now > e.start + e.duration
  }

  function Lookup(store: map<Key, Entry>, key: Key, now: int): Option<Data> {
    if key in store && !IsExpired(store[key], now) then Some(store[key].data) else None
  }

  // ---------------------------------------------------------------- interleavings

  /** Where the sweeper is: between entries, holding an entry it has loaded and not yet checked, or
      about to delete a key whose loaded entry it found expired. */
  datatype Sweeper = Idle | Holding(key: Key, entry: Entry) | Deleting(key: Key)

  /** `latest` is the store as it would be without a sweeper. */
  datatype State = State(now: int, store: map<Key, Entry>, latest: map<Key, Entry>, sweeper: Sweeper)

  datatype Event =
    | Tick(elapsed: nat)
    | Put(key: Key, data: Data, duration: int)
    | Delete(key: Key)
    | SweepLoad(key: Key)
    | SweepCheck
    | SweepDelete

  predicate Enabled(s: State, e: Event) {
    match e
    case SweepLoad(k) => s.sweeper.Idle? && k in s.store
    case SweepCheck => s.sweeper.Holding?
    case SweepDelete => s.sweeper.Deleting?
    case _ => true
  }

  function Next(s: State, e: Event): State
    requires Enabled(s, e)
  {
    match e
    case Tick(elapsed) => s.(now := s.now + elapsed)
    case Put(k, data, duration) =>
      var entry := Entry(data, duration, s.now);
      s.(store := s.store[k := entry], latest := s.latest[k := entry])
    case Delete(k) => s.(store := s.store - {k}, latest := s.latest - {k})
    case SweepLoad(k) => s.(sweeper := Holding(k, s.store[k]))
    case SweepCheck => s.(sweeper := if IsExpired(s.sweeper.entry, s.now) then Deleting(s.sweeper.key) else Idle)
    case SweepDelete => s.(store := s.store - {s.sweeper.key}, sweeper := Idle)
  }

  function Read(s: State, k: Key): Option<Data> {
    Lookup(s.store, k, s.now)
  }

  /** What a reader should see: the latest value put, unless deleted or expired. */
  function Promised(s: State, k: Key): Option<Data> {
    Lookup(s.latest, k, s.now)
  }

  // ---------------------------------------------------------------- the store

  class MemoryCacheStore {
    var store: map<Key, Entry>
    var sweeper: Sweeper
    ghost var latest: map<Key, Entry>

    constructor ()
      ensures store == latest == map[] && sweeper == Idle
    {
      store, sweeper, latest := map[], Idle, map[];
    }

    ghost function View(now: int): State
      reads this
    {
      State(now, store, latest, sweeper)
    }

    method Put(key: Key, data: Data, duration: int, now: int)
      modifies this
      ensures View(now) == Next(old(View(now)), Event.Put(key, data, duration))
      ensures store == old(store)[key := Entry(data, duration, now)]
    {
      store := store[key := Entry(data, duration, now)];
      latest := latest[key := Entry(data, duration, now)];
    }

    method Delete(key: Key, ghost now: int)
      modifies this
      ensures View(now) == Next(old(View(now)), Event.Delete(key))
      ensures store == old(store) - {key}
    {
      store := store - {key};
      latest := latest - {key};
    }

    method Get(key: Key, now: int) returns (r: Option<Data>)
      ensures r == Read(View(now), key)
      ensures r.Some? <==> key in store && (store[key].duration <= 0 || now <= store[key].start + store[key].duration)
      ensures r.Some? ==> r.value == store[key].data
    {
      if key in store && !IsExpired(store[key], now) {
        return Some(store[key].data);
      }
      return None;
    }

    method LoadEntry(key: Key, ghost now: int)
      requires Enabled(View(now), SweepLoad(key))
      modifies this
      ensures View(now) == Next(old(View(now)), SweepLoad(key))
      ensures sweeper == Holding(key, store[key]) && store == old(store)
    {
      sweeper := Holding(key, store[key]);
    }

    method CheckEntry(now: int)
      requires Enabled(View(now), SweepCheck)
      modifies this
      ensures View(now) == Next(old(View(now)), SweepCheck)
      ensures
        var e := old(sweeper.entry);
        sweeper == if e.duration > 0 && now > e.start + e.duration then Deleting(old(sweeper.key)) else Idle
    {
      sweeper := if IsExpired(sweeper.entry, now) then Deleting(sweeper.key) else Idle;
    }

    method DeleteEntry(ghost now: int)
      requires Enabled(View(now), SweepDelete)
      modifies this
      ensures View(now) == Next(old(View(now)), SweepDelete)
      ensures store == old(store) - {old(sweeper.key)} && sweeper == Idle
    {
      store := store - {sweeper.key};
      sweeper := Idle;
    }

    /** A sweep with nothing in between: every expired entry goes, every other stays. */
    method Sweep(now: int)
      requires sweeper == Idle
      modifies this
      ensures store == map k | k in old(store) && !IsExpired(old(store)[k], now) :: old(store)[k]
      ensures latest == old(latest) && sweeper == Idle
    {
      var rest := store.Keys;
      while rest != {}
        invariant rest <= old(store).Keys && sweeper == Idle && latest == old(latest)
        invariant store == map k | k in old(store) && (k in rest || !IsExpired(old(store)[k], now)) :: old(store)[k]
        decreases rest
      {
        var k :| k in rest;
        LoadEntry(k, now);
        CheckEntry(now);
        if sweeper.Deleting? {
          DeleteEntry(now);
        }
        rest := rest - {k};
      }
    }
  }

  // ---------------------------------------------------------------- runs

  ghost predicate Run(states: seq<State>, events: seq<Event>) {
    && |states| == |events| + 1
    && states[0].store == states[0].latest == map[] && states[0].sweeper == Idle
    && forall i :: 0 <= i < |events| ==> Enabled(states[i], events[i]) && states[i + 1] == Next(states[i], events[i])
  }

  ghost predicate Sound(s: State) {
    forall k :: k in s.store ==> k in s.latest && s.store[k] == s.latest[k]
  }

  /** An entry expires once its duration has passed, and never without a positive one. */
  lemma ExpiresIff(e: Entry, now: int)
    ensures IsExpired(e, now) <==> e.duration > 0 && now - e.start > e.duration
    ensures e.duration <= 0 ==> !IsExpired(e, now)
    ensures forall later :: later >= now && IsExpired(e, now) ==> IsExpired(e, later)
  {
  }

  /** In every interleaving, what a reader gets is the latest value put, undeleted and unexpired. */
  lemma {:induction false} GetIsLatest(states: seq<State>, events: seq<Event>, i: nat, k: Key)
    requires Run(states, events) && i < |states|
    ensures Sound(states[i])
    ensures Read(states[i], k).Some? ==> Read(states[i], k) == Promised(states[i], k)
  {
    if i > 0 {
      GetIsLatest(states, events, i - 1, k);
      assert states[i] == Next(states[i - 1], events[i - 1]);
    }
  }

  /** Whatever the sweeper removed had expired, and so stays unseen. */
  ghost predicate OnlyExpiredMissing(s: State) {
    forall k :: k in s.latest && k !in s.store ==> IsExpired(s.latest[k], s.now)
  }

  ghost predicate Faithful(s: State) {
    forall k :: Read(s, k) == Promised(s, k)
  }

  lemma FaithfulIff(s: State)
    requires Sound(s)
    ensures Faithful(s) <==> OnlyExpiredMissing(s)
  {
    if Faithful(s) {
      forall k | k in s.latest && k !in s.store
        ensures IsExpired(s.latest[k], s.now)
      {
        assert Read(s, k) == Promised(s, k);
      }
    }
  }

  ghost predicate HitsLive(s: State, e: Event) {
    e.SweepDelete? && s.sweeper.Deleting? && s.sweeper.key in s.store && !IsExpired(s.store[s.sweeper.key], s.now)
  }

  lemma StepMissing(s: State, e: Event)
    requires Sound(s) && OnlyExpiredMissing(s) && Enabled(s, e)
    ensures OnlyExpiredMissing(Next(s, e)) <==> !HitsLive(s, e)
  {
    if HitsLive(s, e) {
      assert s.sweeper.key in Next(s, e).latest && s.sweeper.key !in Next(s, e).store;
    }
  }

  lemma {:induction false} MissingAlong(states: seq<State>, events: seq<Event>, n: nat)
    requires Run(states, events) && n < |states|
    requires forall i :: 0 <= i < n ==> !HitsLive(states[i], events[i])
    ensures OnlyExpiredMissing(states[n])
  {
    if n > 0 {
      MissingAlong(states, events, n - 1);
      GetIsLatest(states, events, n - 1, "");
      assert states[n] == Next(states[n - 1], events[n - 1]);
      StepMissing(states[n - 1], events[n - 1]);
    }
  }

  /** Over a whole run, readers see exactly what a cache without a sweeper would show, exactly when
      no deletion of the sweeper ever meets an entry that has not expired. */
  lemma SweeperInvisibleIff(states: seq<State>, events: seq<Event>)
    requires Run(states, events)
    ensures (forall i :: 0 <= i < |states| ==> Faithful(states[i])) <==>
            (forall i :: 0 <= i < |events| ==> !HitsLive(states[i], events[i]))
  {
    if forall i :: 0 <= i < |events| ==> !HitsLive(states[i], events[i]) {
      forall i | 0 <= i < |states|
        ensures Faithful(states[i])
      {
        MissingAlong(states, events, i);
        GetIsLatest(states, events, i, "");
        FaithfulIff(states[i]);
      }
    } else {
      var i :| 0 <= i < |events| && HitsLive(states[i], events[i]);
      GetIsLatest(states, events, i, "");
      GetIsLatest(states, events, i + 1, "");
      FaithfulIff(states[i]);
      FaithfulIff(states[i + 1]);
      if OnlyExpiredMissing(states[i]) {
        StepMissing(states[i], events[i]);
        assert states[i + 1] == Next(states[i], events[i]);
      }
    }
  }

  /** The key the sweeper is at, if any. */
  predicate At(s: State, k: Key) {
    !s.sweeper.Idle? && s.sweeper.key == k
  }

  /** No value is put under a key while the sweeper is at it. */
  ghost predicate Uninterleaved(states: seq<State>, events: seq<Event>)
    requires |states| == |events| + 1
  {
    forall i :: 0 <= i < |events| && events[i].Put? ==> !At(states[i], events[i].key)
  }

  /** The entry the sweeper holds is still the stored one, and what it is about to delete has expired. */
  ghost predicate HoldsCurrent(s: State) {
    && (s.sweeper.Holding? && s.sweeper.key in s.store ==> s.store[s.sweeper.key] == s.sweeper.entry)
    && (s.sweeper.Deleting? && s.sweeper.key in s.store ==> IsExpired(s.store[s.sweeper.key], s.now))
  }

  lemma {:induction false} SweeperStaysCurrent(states: seq<State>, events: seq<Event>, n: nat)
    requires Run(states, events) && Uninterleaved(states, events) && n < |states|
    ensures HoldsCurrent(states[n])
  {
    if n > 0 {
      SweeperStaysCurrent(states, events, n - 1);
      assert states[n] == Next(states[n - 1], events[n - 1]);
    }
  }

  /** Sweeps that are not interleaved with a new value change nothing a reader sees, now or later. */
  lemma UninterleavedSweepsInvisible(states: seq<State>, events: seq<Event>, i: nat, k: Key)
    requires Run(states, events) && Uninterleaved(states, events) && i < |states|
    ensures Read(states[i], k) == Promised(states[i], k)
  {
    forall j | 0 <= j < |events|
      ensures !HitsLive(states[j], events[j])
    {
      SweeperStaysCurrent(states, events, j);
      assert Enabled(states[j], events[j]);
    }
    SweeperInvisibleIff(states, events);
    assert Faithful(states[i]);
  }

  /** A value put while the sweeper is at its key can be lost while fresh. */
  lemma FreshValueCanBeLost() returns (states: seq<State>, events: seq<Event>)
    ensures Run(states, events) && !Faithful(states[|events|])
  {
    var s0 := State(0, map[], map[], Idle);
    events := [Put("k", "old", 1), SweepLoad("k"), Tick(2), Put("k", "new", 9), SweepCheck, SweepDelete];
    var s1 := Next(s0, events[0]);
    var s2 := Next(s1, events[1]);
    var s3 := Next(s2, events[2]);
    var s4 := Next(s3, events[3]);
    var s5 := Next(s4, events[4]);
    var s6 := Next(s5, events[5]);
    states := [s0, s1, s2, s3, s4, s5, s6];
    assert Read(s6, "k") == None && Promised(s6, "k") == Some("new");
  }
}
