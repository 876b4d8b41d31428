/**
 Datagrams that wait for a sniffing verdict (src/udp/pending.rs), in one receive loop of an
 open runtime: the handler of one packet and one reap are each one step, and creating a
 session succeeds. What a sniffer answers is left open.
 */
module PendingReplay {
  import opened Common

  type Key = nat

  /** A datagram fits the receive buffer. */
  const RECV_BUFFER: nat := 65536
  type Datagram = p: Bytes | |p| <= RECV_BUFFER

  const MAX_CACHED_DATAGRAMS: nat := 8
  const MAX_CACHED_BYTES: nat := 64 * 1024
  const MAX_PENDING: nat := 4096
  const NO_CLUE_LIMIT: nat := 2

  function TotalBytes(ds: seq<Datagram>): nat {
    if ds == [] then 0 else TotalBytes(ds[..|ds| - 1]) + |ds[|ds| - 1]|
  }

  /** `PendingUdpSniff` with its replay buffer. */
  datatype Entry = Entry(deadline: nat, noClue: nat, datagrams: seq<Datagram>, cachedBytes: nat)

  predicate EntryOk(e: Entry) {
    && 1 <= |e.datagrams| <= MAX_CACHED_DATAGRAMS
    && e.cachedBytes == TotalBytes(e.datagrams) <= MAX_CACHED_BYTES
    && e.noClue < NO_CLUE_LIMIT
  }

  function NewEntry(payload: Datagram, deadline: nat): (e: Entry)
    ensures EntryOk(e) && e.datagrams == [payload]
  {
    assert [payload][..0] == [];
    Entry(deadline, 0, [payload], |payload|)
  }

  predicate RoomFor(e: Entry, payload: Datagram) {
    |e.datagrams| < MAX_CACHED_DATAGRAMS && e.cachedBytes + |payload| <= MAX_CACHED_BYTES
  }

  function Pushed(e: Entry, payload: Datagram): (r: Entry)
    ensures EntryOk(e) && RoomFor(e, payload) ==> EntryOk(r)
    ensures r.datagrams == e.datagrams + [payload] && r.deadline == e.deadline && r.noClue == e.noClue
  {
    assert (e.datagrams + [payload])[..|e.datagrams|] == e.datagrams;
    e.(datagrams := e.datagrams + [payload], cachedBytes := e.cachedBytes + |payload|)
  }

  /** What a sniffer says about a payload. */
  datatype Outcome = Matched | NeedMore | NotMatched | Failed

  /** A pending key goes on waiting: in time, with room, and the sniffer not done with it. */
  predicate StillWaits(e: Entry, payload: Datagram, now: nat, feed: Outcome) {
    && now < e.deadline && RoomFor(e, payload)
    && (feed.NeedMore? || (feed.NotMatched? && e.noClue + 1 < NO_CLUE_LIMIT))
  }

  /** The entry of a key that goes on waiting. */
  function Waiting(e: Entry, payload: Datagram, feed: Outcome): Entry {
    if feed.NotMatched? then Pushed(e, payload).(noClue := e.noClue + 1) else Pushed(e, payload)
  }

  /** The first sniffer that neither passes nor fails asks for more. */
  predicate WantsMore(first: seq<Outcome>) {
    first != [] && (first[0].NeedMore? || (!first[0].Matched? && WantsMore(first[1..])))
  }

  /** What became of a datagram that is no longer cached. */
  datatype Fate = Forwarded(payload: Datagram) | Dropped(payload: Datagram)

  function Payloads(fates: seq<Fate>): (r: seq<Datagram>)
    ensures |r| == |fates|
  {
    seq(|fates|, i requires 0 <= i < |fates| => fates[i].payload)
  }

  function Sent(ds: seq<Datagram>): (r: seq<Fate>)
    ensures |r| == |ds|
  {
    seq(|ds|, i requires 0 <= i < |ds| => Forwarded(ds[i]))
  }

  function Lost(ds: seq<Datagram>): (r: seq<Fate>)
    ensures |r| == |ds|
  {
    seq(|ds|, i requires 0 <= i < |ds| => Dropped(ds[i]))
  }

  predicate AllForwarded(fates: seq<Fate>) {
    forall f | f in fates :: f.Forwarded?
  }

  function Get<T>(m: map<Key, seq<T>>, k: Key): seq<T> {
    if k in m then m[k] else []
  }

  function Cached(pending: map<Key, Entry>, k: Key): seq<Datagram> {
    if k in pending then pending[k].datagrams else []
  }

  datatype Event =
    | Packet(key: Key, payload: Datagram, now: nat, direct: bool, feed: Outcome, first: seq<Outcome>)
    | Reap(now: nat)
    | SessionEnds(key: Key)

  function Arrival(e: Event, k: Key): seq<Datagram> {
    if e.Packet? && e.key == k then [e.payload] else []
  }

  /** The datagrams of one key, in order of arrival. */
  function Arrivals(events: seq<Event>, k: Key): seq<Datagram> {
    if events == [] then []
    else Arrivals(events[..|events| - 1], k) + Arrival(events[|events| - 1], k)
  }

  // ----- what the loop computes

  datatype Config = Config(full: bool, timeout: nat)

  /** `log` is what became of the datagrams of each key, `evicted` the keys that ever overflowed. */
  datatype State = State(
    pending: map<Key, Entry>, ready: set<Key>, log: map<Key, seq<Fate>>, evicted: set<Key>)

  const START := State(map[], {}, map[], {})

  /** The datagrams go to the session of the key, which exists afterwards. */
  function Delivered(s: State, key: Key, ds: seq<Datagram>): State {
    s.(ready := s.ready + {key}, log := s.log[key := Get(s.log, key) + Sent(ds)])
  }

  function Unpended(s: State, key: Key): State {
    s.(pending := s.pending - {key})
  }

  /** No entry has an earlier deadline. */
  predicate IsOldest(pending: map<Key, Entry>, key: Key) {
    key in pending && forall k | k in pending :: pending[key].deadline <= pending[k].deadline
  }

  function Evicted(s: State, key: Key): State {
    State(s.pending - {key}, s.ready, s.log[key := Get(s.log, key) + Lost(Cached(s.pending, key))], s.evicted + {key})
  }

  /** `enforce_pending_udp_sniff_capacity`: `victims` are the keys it chooses, oldest entries one by one. */
  function Capped(s: State, victims: seq<Key>): Option<State>
    decreases |victims|
  {
    if |s.pending| <= MAX_PENDING then
      if victims == [] then Some(s) else None
    else if victims == [] || !IsOldest(s.pending, victims[0]) then None
    else Capped(Evicted(s, victims[0]), victims[1..])
  }

  /** The entries of `keys` are flushed. */
  function Flushed(s: State, keys: set<Key>): State
    requires keys <= s.pending.Keys
  {
    s.(pending := s.pending - keys, ready := s.ready + keys,
       log := map k | k in s.log.Keys + keys ::
         if k in keys then Get(s.log, k) + Sent(s.pending[k].datagrams) else s.log[k])
  }

  function ExpiredKeys(s: State, now: nat): (keys: set<Key>)
    ensures keys <= s.pending.Keys
  {
    set k | k in s.pending && now >= s.pending[k].deadline
  }

  /** A packet is cached rather than forwarded. */
  predicate Waits(c: Config, s: State, e: Event)
    requires e.Packet?
  {
    && e.key !in s.ready
    && if e.key in s.pending then StillWaits(s.pending[e.key], e.payload, e.now, e.feed)
       else !e.direct && c.full && WantsMore(e.first)
  }

  function EntryAfter(c: Config, s: State, e: Event): Entry
    requires e.Packet?
  {
    if e.key in s.pending then Waiting(s.pending[e.key], e.payload, e.feed)
    else NewEntry(e.payload, e.now + c.timeout)
  }

  /** What a packet makes the loop forward: what was cached for its key, unless a session was there already. */
  function Released(s: State, e: Event): seq<Datagram>
    requires e.Packet?
  {
    (if e.key in s.ready then [] else Cached(s.pending, e.key)) + [e.payload]
  }

  /** One event; `victims` is the choice among the oldest entries when the map overflows. */
  function Step(c: Config, s: State, e: Event, victims: seq<Key>): Option<State> {
    match e
    case Packet(key, _, _, _, _, _) =>
      if Waits(c, s, e) then Capped(s.(pending := s.pending[key := EntryAfter(c, s, e)]), victims)
      else if victims == [] then Some(Delivered(Unpended(s, key), key, Released(s, e)))
      else None
    case Reap(now) => Capped(Flushed(s, ExpiredKeys(s, now)), victims)
    case SessionEnds(key) => if victims == [] then Some(s.(ready := s.ready - {key})) else None
  }

  /** The state after a run, if the victims were chosen as they may be. */
  function Run(c: Config, events: seq<Event>, victims: seq<seq<Key>>): Option<State>
    requires |victims| == |events|
  {
    if events == [] then Some(START)
    else
      var n := |events| - 1;
      match Run(c, events[..n], victims[..n])
      case None => None
      case Some(s) => Step(c, s, events[n], victims[n])
  }

  // ----- what every step does to one key

  predicate EntriesOk(s: State) {
    forall k | k in s.pending :: EntryOk(s.pending[k])
  }

  /** No key is both pending and served, and the limits hold. */
  predicate Sound(s: State) {
    s.pending.Keys !! s.ready && EntriesOk(s) && |s.pending| <= MAX_PENDING
  }

  /** Everything the key owed is forwarded, in order, and it has a session. */
  predicate Forwards(s: State, e: Event, s': State, k: Key) {
    && Get(s'.log, k) == Get(s.log, k) + Sent(Cached(s.pending, k) + Arrival(e, k))
    && k !in s'.pending && k in s'.ready && (k in s'.evicted <==> k in s.evicted)
  }

  /** Nothing is settled; an arrival is cached behind what was cached before. */
  predicate Caches(s: State, e: Event, s': State, k: Key) {
    && Get(s'.log, k) == Get(s.log, k) && Cached(s'.pending, k) == Cached(s.pending, k) + Arrival(e, k)
    && (k in s'.evicted <==> k in s.evicted)
    && (k in s.pending ==> k in s'.pending && s'.pending[k].deadline == s.pending[k].deadline)
  }

  /** Everything the key owed, and it owed something, is dropped. */
  predicate Drops(s: State, e: Event, s': State, k: Key) {
    && Get(s'.log, k) == Get(s.log, k) + Lost(Cached(s.pending, k) + Arrival(e, k))
    && Cached(s.pending, k) + Arrival(e, k) != []
    && k !in s'.pending && k !in s'.ready && k in s'.evicted
  }

  lemma CappedOnce(s: State, victims: seq<Key>)
    requires |s.pending| <= MAX_PENDING + 1 && Capped(s, victims).Some?
    ensures |s.pending| <= MAX_PENDING ==> victims == [] && Capped(s, victims).value == s
    ensures |s.pending| > MAX_PENDING ==>
              |victims| == 1 && IsOldest(s.pending, victims[0]) && Capped(s, victims).value == Evicted(s, victims[0])
  {
    if |s.pending| > MAX_PENDING {
      SizeWithout(s.pending, victims[0]);
      assert |Evicted(s, victims[0]).pending| <= MAX_PENDING;
    }
  }

  /** The entries of `gone` leave, and none of them was due later than any that stays. */
  ghost predicate DropsOldest(s: State, gone: set<Key>, t: State) {
    && gone <= s.pending.Keys && t.pending == s.pending - gone
    && t.ready == s.ready && t.evicted == s.evicted + gone
    && forall g, k | g in gone && k in t.pending :: s.pending[g].deadline <= s.pending[k].deadline
  }

  lemma DropsOneMore(s: State, first: Key, gone: set<Key>, t: State)
    requires IsOldest(s.pending, first) && DropsOldest(Evicted(s, first), gone, t)
    ensures DropsOldest(s, {first} + gone, t)
  {
    hide Lost, Cached;
    assert s.pending - {first} - gone == s.pending - ({first} + gone);
  }

  /** However far the map is over its limit, it is cut down to it, and the victims are the entries that go. */
  lemma {:induction false} CappedDropsOldest(s: State, victims: seq<Key>)
    requires Capped(s, victims).Some?
    ensures DropsOldest(s, ToSet(victims), Capped(s, victims).value)
    ensures |Capped(s, victims).value.pending| == Min(|s.pending|, MAX_PENDING)
    decreases |victims|
  {
    hide DropsOldest, Evicted, IsOldest;
    if |s.pending| <= MAX_PENDING {
      NothingDropped(s);
      assert ToSet(victims) == {};
    } else {
      var first, rest := victims[0], victims[1..];
      assert victims == [first] + rest;
      assert ToSet(victims) == {first} + ToSet(rest);
      CappedDropsOldest(Evicted(s, first), rest);
      DropsOneMore(s, first, ToSet(rest), Capped(s, victims).value);
      EvictedSize(s, first);
    }
  }

  lemma NothingDropped(s: State)
    ensures DropsOldest(s, {}, s)
  {
    assert s.pending - {} == s.pending;
  }

  lemma EvictedSize(s: State, key: Key)
    requires IsOldest(s.pending, key)
    ensures |Evicted(s, key).pending| == |s.pending| - 1
  {
    SizeWithout(s.pending, key);
  }

  lemma PutBack(m: map<Key, Entry>, k: Key, e: Entry)
    ensures (m - {k})[k := e] == m[k := e]
  {
  }

  lemma SizeWithout(m: map<Key, Entry>, k: Key)
    requires k in m
    ensures |m - {k}| == |m| - 1
  {
    assert (m - {k}).Keys == m.Keys - {k};
  }

  lemma SizeWith(m: map<Key, Entry>, k: Key, e: Entry)
    ensures |m[k := e]| == if k in m then |m| else |m| + 1
  {
    assert m[k := e].Keys == m.Keys + {k};
  }

  /** A reap never overflows, so it chooses no victims. */
  lemma FlushedShrinks(s: State, keys: set<Key>)
    requires keys <= s.pending.Keys
    ensures |Flushed(s, keys).pending| <= |s.pending|
  {
    assert s.pending.Keys == Flushed(s, keys).pending.Keys + keys;
  }

  /** A key that nothing happens to. */
  lemma Untouched(s: State, e: Event, s': State, k: Key)
    requires Get(s'.log, k) == Get(s.log, k) && Arrival(e, k) == [] && (k in s'.evicted <==> k in s.evicted)
    requires k in s.pending <==> k in s'.pending
    requires k in s.pending ==> s'.pending[k] == s.pending[k]
    ensures Caches(s, e, s', k)
  {
    assert Cached(s.pending, k) + [] == Cached(s.pending, k);
  }

  lemma ReleasedIsOwed(s: State, e: Event)
    requires Sound(s) && e.Packet?
    ensures Released(s, e) == Cached(s.pending, e.key) + Arrival(e, e.key)
  {
  }

  lemma UnpendedIsSound(s: State, key: Key)
    requires Sound(s)
    ensures Sound(Unpended(s, key)) && key !in Unpended(s, key).pending
  {
    hide EntryOk;
    if key in s.pending {
      SizeWithout(s.pending, key);
    } else {
      assert s.pending - {key} == s.pending;
    }
  }

  lemma UnpendedFate(s: State, key: Key, k: Key)
    ensures var s' := Unpended(s, key);
            && s'.log == s.log && s'.ready == s.ready && s'.evicted == s.evicted
            && (k in s'.pending <==> k in s.pending && k != key) && (k in s'.pending ==> s'.pending[k] == s.pending[k])
  {
  }

  lemma DeliveredFate(s: State, key: Key, ds: seq<Datagram>, k: Key)
    ensures var s' := Delivered(s, key, ds);
            && s'.pending == s.pending && s'.evicted == s.evicted && key in s'.ready
            && Get(s'.log, k) == (if k == key then Get(s.log, k) + Sent(ds) else Get(s.log, k))
            && (Sound(s) && key !in s.pending ==> Sound(s'))
  {
    hide Sent, EntryOk;
  }

  /** A packet that is forwarded, with what was cached before it. */
  lemma ForwardedPacket(c: Config, s: State, e: Event, k: Key)
    requires Sound(s) && e.Packet?
    ensures var s' := Delivered(Unpended(s, e.key), e.key, Released(s, e));
            Sound(s') && if k == e.key then Forwards(s, e, s', k) else Caches(s, e, s', k)
  {
    hide EntryOk, Sent, Released, Cached, Caches, Sound, Delivered, Unpended;
    var s' := Delivered(Unpended(s, e.key), e.key, Released(s, e));
    UnpendedIsSound(s, e.key);
    DeliveredFate(Unpended(s, e.key), e.key, Released(s, e), k);
    UnpendedFate(s, e.key, k);
    ReleasedIsOwed(s, e);
    if k != e.key {
      Untouched(s, e, s', k);
    }
  }

  /** The state with the packet cached, before anything is evicted. */
  function Grown(c: Config, s: State, e: Event): State
    requires e.Packet?
  {
    s.(pending := s.pending[e.key := EntryAfter(c, s, e)])
  }

  lemma EntryAfterFits(c: Config, s: State, e: Event)
    requires EntriesOk(s) && e.Packet? && Waits(c, s, e)
    ensures var entry := EntryAfter(c, s, e);
            && e.key !in s.ready && EntryOk(entry)
            && entry.datagrams == Cached(s.pending, e.key) + [e.payload]
            && (e.key in s.pending ==> entry.deadline == s.pending[e.key].deadline)
  {
    if e.key in s.pending {
      assert EntryOk(s.pending[e.key]);
    }
  }

  lemma CachesArrival(c: Config, s: State, e: Event)
    requires EntriesOk(s) && e.Packet? && Waits(c, s, e)
    ensures Caches(s, e, Grown(c, s, e), e.key)
  {
    hide EntryOk, EntryAfter, Waits;
    EntryAfterFits(c, s, e);
  }

  lemma CachedPacket(c: Config, s: State, e: Event, k: Key)
    requires Sound(s) && e.Packet? && Waits(c, s, e)
    ensures var s' := Grown(c, s, e); s'.pending.Keys !! s'.ready && EntriesOk(s') && Caches(s, e, s', k)
    ensures |Grown(c, s, e).pending| == if e.key in s.pending then |s.pending| else |s.pending| + 1
  {
    hide EntryOk, EntryAfter, Waits, Caches;
    SizeWith(s.pending, e.key, EntryAfter(c, s, e));
    EntryAfterFits(c, s, e);
    if k == e.key {
      assert Caches(s, e, Grown(c, s, e), k) by { CachesArrival(c, s, e); }
    } else {
      Untouched(s, e, Grown(c, s, e), k);
    }
  }

  lemma EvictedKey(c: Config, s: State, e: Event, victim: Key, k: Key)
    requires Sound(s) && e.Packet? && Waits(c, s, e)
    requires |Grown(c, s, e).pending| > MAX_PENDING && IsOldest(Grown(c, s, e).pending, victim)
    ensures var s' := Evicted(Grown(c, s, e), victim);
            Sound(s') && if k == victim then Drops(s, e, s', k) else Caches(s, e, s', k)
  {
    hide Waits, EntryAfter, IsOldest, EntriesOk, EntryOk, Grown, Lost;
    var grown := Grown(c, s, e);
    CachedPacket(c, s, e, k);
    CachedPacket(c, s, e, victim);
    assert victim in grown.pending by { OldestIsThere(grown.pending, victim); }
    EvictedIsSound(grown, victim);
    EvictedFate(grown, victim, k);
  }

  lemma EvictedIsSound(s: State, victim: Key)
    requires s.pending.Keys !! s.ready && EntriesOk(s) && |s.pending| <= MAX_PENDING + 1 && victim in s.pending
    ensures Sound(Evicted(s, victim))
  {
    hide EntryOk;
    SizeWithout(s.pending, victim);
  }

  lemma EvictedFate(s: State, victim: Key, k: Key)
    requires EntriesOk(s) && victim in s.pending
    ensures var s' := Evicted(s, victim);
            if k == victim then
              && Get(s'.log, k) == Get(s.log, k) + Lost(Cached(s.pending, k))
              && Cached(s.pending, k) != [] && k !in s'.pending && k in s'.evicted
            else
              && Get(s'.log, k) == Get(s.log, k) && Cached(s'.pending, k) == Cached(s.pending, k)
              && (k in s'.evicted <==> k in s.evicted)
              && (k in s.pending ==> k in s'.pending && s'.pending[k] == s.pending[k])
  {
    hide Lost;
    assert EntryOk(s.pending[victim]);
  }

  lemma OldestIsThere(m: map<Key, Entry>, k: Key)
    requires IsOldest(m, k)
    ensures k in m
  {
  }

  lemma FlushedFate(s: State, keys: set<Key>, k: Key)
    requires keys <= s.pending.Keys
    ensures var s' := Flushed(s, keys);
            && s'.evicted == s.evicted && s'.ready == s.ready + keys
            && (k in s'.pending <==> k in s.pending && k !in keys)
                      && (k in s'.pending ==> s'.pending[k] == s.pending[k])
            && Get(s'.log, k) == (if k in keys then Get(s.log, k) + Sent(Cached(s.pending, k)) else Get(s.log, k))
  {
    hide Sent;
  }

  lemma FlushedKeepsEntries(s: State, keys: set<Key>)
    requires keys <= s.pending.Keys && s.pending.Keys !! s.ready && EntriesOk(s)
    ensures EntriesOk(Flushed(s, keys)) && Flushed(s, keys).pending.Keys !! Flushed(s, keys).ready
  {
    hide EntryOk, Sent;
  }

  lemma ReapedKey(s: State, now: nat, k: Key)
    requires Sound(s)
    ensures var s' := Flushed(s, ExpiredKeys(s, now));
            Sound(s') && if k in ExpiredKeys(s, now) then Forwards(s, Reap(now), s', k) else Caches(s, Reap(now), s', k)
  {
    hide EntryOk, Sent, Cached, Caches, Flushed, ExpiredKeys;
    var keys := ExpiredKeys(s, now);
    FlushedShrinks(s, keys);
    FlushedFate(s, keys, k);
    FlushedKeepsEntries(s, keys);
    assert Cached(s.pending, k) + [] == Cached(s.pending, k);
    if k !in keys {
      Untouched(s, Reap(now), Flushed(s, keys), k);
    }
  }

  /**
   In every step a key has all its datagrams forwarded, keeps them cached, or, exactly if it is
   a victim, has them dropped.
   */
  lemma KeyFate(c: Config, s: State, e: Event, victims: seq<Key>, k: Key)
    requires Sound(s) && Step(c, s, e, victims).Some?
    ensures var s' := Step(c, s, e, victims).value;
            Sound(s') && if k in victims then Drops(s, e, s', k) else Forwards(s, e, s', k) || Caches(s, e, s', k)
  {
    hide EntryOk, Waits, EntryAfter, Sent, Lost, IsOldest, Drops, Forwards, Evicted, Flushed, Delivered;
    match e {
      case Packet(_, _, _, _, _, _) => {
        if Waits(c, s, e) {
          CachedPacket(c, s, e, k);
          CappedOnce(Grown(c, s, e), victims);
          if victims != [] {
            EvictedKey(c, s, e, victims[0], k);
          }
        } else {
          ForwardedPacket(c, s, e, k);
        }
      }
      case Reap(now) => {
        ReapedKey(s, now, k);
        CappedOnce(Flushed(s, ExpiredKeys(s, now)), victims);
      }
      case SessionEnds(_) => {
        assert Cached(s.pending, k) + [] == Cached(s.pending, k);
      }
    }
  }

  // ----- when a packet is cached and when it is forwarded

  /** A packet of a served key is forwarded at once. */
  lemma ServedIsForwarded(c: Config, s: State, e: Event, victims: seq<Key>)
    requires Sound(s) && e.Packet? && e.key in s.ready && Step(c, s, e, victims).Some?
    ensures Forwards(s, e, Step(c, s, e, victims).value, e.key)
  {
    hide Forwards, Sound, Delivered, Unpended, Released;
    ForwardedPacket(c, s, e, e.key);
  }

  /**
   A packet of a pending key is cached exactly in time, as one of at most 8 datagrams, within
   64 KiB, and while the sniffer wants more or has been without a clue for the first time.
   Otherwise, so for a match, a failure, a late packet and an overflow, everything is forwarded.
   */
  lemma PendingIsCachedIff(c: Config, s: State, e: Event, victims: seq<Key>)
    requires Sound(s) && e.Packet? && e.key !in s.ready && e.key in s.pending && Step(c, s, e, victims).Some?
    ensures var was := s.pending[e.key]; var s' := Step(c, s, e, victims).value;
            if && e.now < was.deadline
               && |was.datagrams| + 1 <= 8 && TotalBytes(was.datagrams) + |e.payload| <= 65536
               && (e.feed == NeedMore || (e.feed == NotMatched && was.noClue == 0))
            then
              && Caches(s, e, s', e.key) && victims == []
              && s'.pending[e.key].noClue == was.noClue + if e.feed == NotMatched then 1 else 0
            else Forwards(s, e, s', e.key)
  {
    hide Forwards, Delivered, Unpended, Released, Caches, Capped, TotalBytes;
    assert EntryOk(s.pending[e.key]);
    if Waits(c, s, e) {
      CachedPacket(c, s, e, e.key);
      CappedOnce(Grown(c, s, e), victims);
    } else {
      ForwardedPacket(c, s, e, e.key);
    }
  }

  /** The first sniffer that has an opinion asks for more. */
  lemma WantsMoreIs(first: seq<Outcome>)
    ensures WantsMore(first) <==>
            exists j | 0 <= j < |first| ::
              first[j] == NeedMore && forall i | 0 <= i < j :: first[i] in {NotMatched, Failed}
    decreases |first|
  {
    if first == [] {
    } else {
      WantsMoreIs(first[1..]);
      if WantsMore(first) && first[0] != NeedMore {
        var j :| 0 <= j < |first[1..]| && first[1..][j] == NeedMore
                 && forall i | 0 <= i < j :: first[1..][i] in {NotMatched, Failed};
        assert first[j + 1] == NeedMore;
        assert forall i | 1 <= i < j + 1 :: first[i] == first[1..][i - 1];
      }
      if j :| 0 < j < |first| && first[j] == NeedMore && forall i | 0 <= i < j :: first[i] in {NotMatched, Failed} {
        assert first[1..][j - 1] == NeedMore;
        assert forall i | 0 <= i < j - 1 :: first[1..][i] == first[i + 1];
      }
    }
  }

  /**
   A packet of a new key is cached exactly if it is not sent directly, in full mode, and the
   first sniffer that has an opinion asks for more; else it is forwarded.
   */
  lemma NewIsCachedIff(c: Config, s: State, e: Event, victims: seq<Key>)
    requires Sound(s) && e.Packet? && e.key !in s.ready && e.key !in s.pending && Step(c, s, e, victims).Some?
    ensures var s' := Step(c, s, e, victims).value;
            if && !e.direct && c.full
               && exists j | 0 <= j < |e.first| ::
                    e.first[j] == NeedMore && forall i | 0 <= i < j :: e.first[i] in {NotMatched, Failed}
            then
              if e.key in victims then Drops(s, e, s', e.key)
              else
                && Caches(s, e, s', e.key) && e.key in s'.pending
                && s'.pending[e.key].deadline == e.now + c.timeout && s'.pending[e.key].noClue == 0
            else Forwards(s, e, s', e.key)
  {
    hide Forwards, Drops, Delivered, Unpended, Released, Caches, Capped, WantsMore, Sound, Evicted, IsOldest;
    WantsMoreIs(e.first);
    if Waits(c, s, e) {
      CachedPacket(c, s, e, e.key);
      GrownSize(c, s, e);
      CappedOnce(Grown(c, s, e), victims);
      if victims != [] {
        EvictedKey(c, s, e, victims[0], e.key);
        if victims[0] != e.key {
          EvictedOther(Grown(c, s, e), victims[0], e.key);
        }
      }
    } else {
      ForwardedPacket(c, s, e, e.key);
    }
  }

  lemma GrownSize(c: Config, s: State, e: Event)
    requires Sound(s) && e.Packet?
    ensures |Grown(c, s, e).pending| <= MAX_PENDING + 1
  {
    hide EntryAfter, EntriesOk;
    SizeWith(s.pending, e.key, EntryAfter(c, s, e));
  }

  lemma EvictedOther(s: State, victim: Key, k: Key)
    requires k != victim && k in s.pending
    ensures k in Evicted(s, victim).pending && Evicted(s, victim).pending[k] == s.pending[k]
  {
  }

  /** A reap forwards exactly what is past its deadline, and leaves the rest alone. */
  lemma ReapForwardsIff(c: Config, s: State, now: nat, victims: seq<Key>, k: Key)
    requires Sound(s) && Step(c, s, Reap(now), victims).Some? && k in s.pending
    ensures var s' := Step(c, s, Reap(now), victims).value;
            if now >= s.pending[k].deadline then Forwards(s, Reap(now), s', k)
            else k in s'.pending && s'.pending[k] == s.pending[k]
  {
    hide Forwards, Flushed, EntriesOk, Capped, Caches;
    var keys := ExpiredKeys(s, now);
    ReapedKey(s, now, k);
    FlushedFate(s, keys, k);
    FlushedShrinks(s, keys);
    CappedOnce(Flushed(s, keys), victims);
  }

  /**
   Something is dropped exactly when a new entry meets a full map, and then it is one entry with
   the earliest deadline.
   */
  ghost predicate EvictsOnlyFromFull(c: Config, s: State, e: Event, victims: seq<Key>, s': State) {
    && (victims != [] <==> e.Packet? && Waits(c, s, e) && e.key !in s.pending && |s.pending| == 4096)
    && (victims != [] ==>
          var grown := s.pending[e.key := EntryAfter(c, s, e)];
          && |victims| == 1 && IsOldest(grown, victims[0])
          && s'.pending == grown - {victims[0]} && |s'.pending| == 4096)
    && s'.evicted == s.evicted + set k | k in victims
  }

  lemma CachingEvictsOnlyFromFull(c: Config, s: State, e: Event, victims: seq<Key>)
    requires Sound(s) && e.Packet? && Waits(c, s, e) && Capped(Grown(c, s, e), victims).Some?
    ensures EvictsOnlyFromFull(c, s, e, victims, Capped(Grown(c, s, e), victims).value)
  {
    hide EntryOk, Waits, EntryAfter, Sent, Lost, IsOldest, EntriesOk, Capped, Caches;
    var grown := Grown(c, s, e);
    CachedPacket(c, s, e, e.key);
    CappedOnce(grown, victims);
    if victims != [] {
      OldestIsThere(grown.pending, victims[0]);
      SizeWithout(grown.pending, victims[0]);
      assert victims == [victims[0]];
    }
  }

  lemma StepEvictsOnlyFromFull(c: Config, s: State, e: Event, victims: seq<Key>)
    requires Sound(s) && Step(c, s, e, victims).Some?
    ensures EvictsOnlyFromFull(c, s, e, victims, Step(c, s, e, victims).value)
  {
    hide Waits, EntryAfter, Sent, Lost, IsOldest, Flushed, EntriesOk, Capped;
    if e.Packet? && Waits(c, s, e) {
      CachingEvictsOnlyFromFull(c, s, e, victims);
    } else if e.Reap? {
      FlushedShrinks(s, ExpiredKeys(s, e.now));
      FlushedFate(s, ExpiredKeys(s, e.now), 0);
      CappedOnce(Flushed(s, ExpiredKeys(s, e.now)), victims);
    }
  }

  // ----- what every run does

  /** The settled datagrams of the key and then the cached ones are the arrivals, in order. */
  predicate Owes(arrived: seq<Datagram>, fates: seq<Fate>, cached: seq<Datagram>) {
    arrived == Payloads(fates) + cached
  }

  /** Nothing is lost and nothing overtakes, and all was forwarded exactly if the key was never evicted. */
  predicate Conserved(s: State, arrived: seq<Datagram>, k: Key) {
    && Owes(arrived, Get(s.log, k), Cached(s.pending, k))
    && (AllForwarded(Get(s.log, k)) <==> k !in s.evicted)
  }

  lemma PayloadsAppend(a: seq<Fate>, b: seq<Fate>)
    ensures Payloads(a + b) == Payloads(a) + Payloads(b)
  {
  }

  lemma SettlingOwed(
    arrived: seq<Datagram>, fates: seq<Fate>, cached: seq<Datagram>, ds: seq<Datagram>, more: seq<Fate>)
    requires Owes(arrived, fates, cached) && Payloads(more) == cached + ds
    ensures Owes(arrived + ds, fates + more, [])
  {
    PayloadsAppend(fates, more);
    Assoc(Payloads(fates), cached, ds);
  }

  lemma Assoc<T>(a: seq<T>, b: seq<T>, c: seq<T>)
    ensures (a + b) + c == a + (b + c)
  {
  }

  lemma FatesOf(ds: seq<Datagram>)
    ensures Payloads(Sent(ds)) == ds && AllForwarded(Sent(ds))
    ensures Payloads(Lost(ds)) == ds && (ds != [] ==> !AllForwarded(Lost(ds)))
  {
    if ds != [] {
      assert Lost(ds)[0] in Lost(ds);
    }
  }

  lemma ForwardedAppend(a: seq<Fate>, b: seq<Fate>)
    ensures AllForwarded(a + b) <==> AllForwarded(a) && AllForwarded(b)
  {
    assert forall f :: f in a + b <==> f in a || f in b;
  }

  lemma StepConserves(c: Config, s: State, e: Event, victims: seq<Key>, arrived: seq<Datagram>, k: Key)
    requires Sound(s) && Step(c, s, e, victims).Some? && Conserved(s, arrived, k)
    ensures Conserved(Step(c, s, e, victims).value, arrived + Arrival(e, k), k)
  {
    hide Sound, Step, Sent, Lost, Payloads, AllForwarded, Arrival;
    var s' := Step(c, s, e, victims).value;
    var fates, cached, ds := Get(s.log, k), Cached(s.pending, k), Arrival(e, k);
    KeyFate(c, s, e, victims, k);
    FatesOf(cached + ds);
    if Caches(s, e, s', k) {
      Assoc(Payloads(fates), cached, ds);
    } else if Drops(s, e, s', k) {
      SettlingOwed(arrived, fates, cached, ds, Lost(cached + ds));
      ForwardedAppend(fates, Lost(cached + ds));
    } else {
      SettlingOwed(arrived, fates, cached, ds, Sent(cached + ds));
      ForwardedAppend(fates, Sent(cached + ds));
    }
  }

  /** Over every run: the limits hold, and no datagram of any key is lost or overtaken. */
  lemma {:induction false} RunConserves(c: Config, events: seq<Event>, victims: seq<seq<Key>>, k: Key)
    requires |victims| == |events| && Run(c, events, victims).Some?
    ensures Sound(Run(c, events, victims).value)
    ensures Conserved(Run(c, events, victims).value, Arrivals(events, k), k)
    decreases |events|
  {
    hide Sound, Step, Conserved;
    if events == [] {
      StartConserves(k);
    } else {
      var n := |events| - 1;
      RunConserves(c, events[..n], victims[..n], k);
      var s := Run(c, events[..n], victims[..n]).value;
      KeyFate(c, s, events[n], victims[n], k);
      StepConserves(c, s, events[n], victims[n], Arrivals(events[..n], k), k);
    }
  }

  /** At every moment of every run: at most 4096 entries, each of at most 8 datagrams and 64 KiB. */
  lemma RunKeepsLimits(c: Config, events: seq<Event>, victims: seq<seq<Key>>, k: Key)
    requires |victims| == |events| && Run(c, events, victims).Some?
    ensures var s := Run(c, events, victims).value;
            && |s.pending| <= 4096 && !(k in s.pending && k in s.ready)
            && (k in s.pending ==> 1 <= |s.pending[k].datagrams| <= 8 && TotalBytes(s.pending[k].datagrams) <= 65536)
  {
    hide Run;
    RunConserves(c, events, victims, k);
  }

  lemma StartConserves(k: Key)
    ensures Sound(START) && Conserved(START, [], k)
  {
  }

  lemma {:induction false} RunPrefix(c: Config, events: seq<Event>, victims: seq<seq<Key>>, i: nat)
    requires i <= |events| == |victims| && Run(c, events, victims).Some?
    ensures Run(c, events[..i], victims[..i]).Some?
    decreases |events|
  {
    hide Step;
    if i == |events| {
      assert events[..i] == events && victims[..i] == victims;
    } else {
      var n := |events| - 1;
      RunPrefix(c, events[..n], victims[..n], i);
      assert events[..n][..i] == events[..i] && victims[..n][..i] == victims[..i];
    }
  }

  /** At every moment of every run, only overflow evicts, and it evicts what was due first. */
  lemma EvictionsInRun(c: Config, events: seq<Event>, victims: seq<seq<Key>>, i: nat)
    requires i < |events| == |victims| && Run(c, events, victims).Some?
    ensures var before := Run(c, events[..i], victims[..i]); var after := Run(c, events[..i + 1], victims[..i + 1]);
            before.Some? && after.Some? && EvictsOnlyFromFull(c, before.value, events[i], victims[i], after.value)
  {
    hide Sound, Step, EvictsOnlyFromFull;
    RunPrefix(c, events, victims, i);
    RunPrefix(c, events, victims, i + 1);
    RunConserves(c, events[..i], victims[..i], 0);
    assert events[..i + 1][..i] == events[..i] && victims[..i + 1][..i] == victims[..i];
    StepEvictsOnlyFromFull(c, Run(c, events[..i], victims[..i]).value, events[i], victims[i]);
  }

  /** The keys of the packets of a run. */
  function PacketKeys(events: seq<Event>): set<Key> {
    set e | e in events && e.Packet? :: e.key
  }

  lemma PacketKeysGrow(events: seq<Event>)
    requires events != []
    ensures var n := |events| - 1; var e := events[n];
            PacketKeys(events) == PacketKeys(events[..n]) + if e.Packet? then {e.key} else {}
  {
    var n := |events| - 1;
    assert events == events[..n] + [events[n]];
  }

  /** Nothing is ever dropped while there are no more keys than the map holds. */
  lemma {:induction false} FewKeysAreNeverEvicted(c: Config, events: seq<Event>, victims: seq<seq<Key>>)
    requires |victims| == |events| && Run(c, events, victims).Some? && |PacketKeys(events)| <= MAX_PENDING
    ensures Run(c, events, victims).value.evicted == {}
    ensures Run(c, events, victims).value.pending.Keys <= PacketKeys(events)
    decreases |events|
  {
    hide Sound, Step, PacketKeys, Waits, EntryAfter, IsOldest, Drops;
    if events == [] {
    } else {
      var n := |events| - 1;
      var e := events[n];
      var s, s' := Run(c, events[..n], victims[..n]).value, Run(c, events, victims).value;
      PacketKeysGrow(events);
      SubsetSize(PacketKeys(events[..n]), PacketKeys(events));
      FewKeysAreNeverEvicted(c, events[..n], victims[..n]);
      RunConserves(c, events[..n], victims[..n], 0);
      StepEvictsOnlyFromFull(c, s, e, victims[n]);
      if victims[n] != [] {
        SubsetSize(s.pending.Keys + {e.key}, PacketKeys(events));
      }
      forall k | k in s'.pending
        ensures k in PacketKeys(events)
      {
        KeyFate(c, s, e, victims[n], k);
        NewEntryHasArrival(s, e, s', k);
      }
    }
  }

  lemma NewEntryHasArrival(s: State, e: Event, s': State, k: Key)
    requires Sound(s') && k in s'.pending && (Forwards(s, e, s', k) || Caches(s, e, s', k))
    ensures k in s.pending || (e.Packet? && e.key == k)
  {
    assert EntryOk(s'.pending[k]);
  }

  // ----- the code

  class UdpLoop {
    const config: Config
    var pending: map<Key, Entry>
    var ready: set<Key>
    var log: map<Key, seq<Fate>>
    var evicted: set<Key>

    ghost function View(): State
      reads this
    {
      State(pending, ready, log, evicted)
    }

    constructor (config: Config)
      ensures View() == START && this.config == config
    {
      this.config := config;
      pending, ready, log, evicted := map[], {}, map[], {};
    }

    /** `forward_udp_payload`: the session exists afterwards. */
    method Forward(key: Key, payload: Datagram)
      modifies this`ready, this`log
      ensures View() == Delivered(old(View()), key, [payload])
    {
      assert Sent([payload]) == [Forwarded(payload)];
      ready := ready + {key};
      log := log[key := Get(log, key) + [Forwarded(payload)]];
    }

    /** `flush_pending_udp_sniff`. */
    method Flush(key: Key, ds: seq<Datagram>)
      requires ds != []
      modifies this`ready, this`log
      ensures View() == Delivered(old(View()), key, ds)
    {
      hide Delivered;
      for i := 0 to |ds|
        invariant View() == if i == 0 then old(View()) else Delivered(old(View()), key, ds[..i])
      {
        Forward(key, ds[i]);
        assert ds[..i + 1] == ds[..i] + [ds[i]];
        DeliveredTwice(old(View()), key, ds[..i], [ds[i]]);
      }
      assert ds[..|ds|] == ds;
    }

    /** `enforce_pending_udp_sniff_capacity`. */
    method EnforceCapacity() returns (victims: seq<Key>)
      modifies this`pending, this`log, this`evicted
      ensures Capped(old(View()), victims) == Some(View())
      ensures DropsOldest(old(View()), ToSet(victims), View()) && |pending| == Min(|old(pending)|, MAX_PENDING)
    {
      hide IsOldest, Evicted, DropsOldest;
      victims := [];
      forall more: seq<Key>
        ensures victims + more == more
      {
      }
      while |pending| > MAX_PENDING
        invariant ready == old(ready)
        invariant forall more | Capped(View(), more).Some? ::
                  Capped(old(View()), victims + more) == Capped(View(), more)
        decreases |pending|
      {
        var oldest := Oldest();
        ghost var before := View();
        assert oldest in pending by { OldestIsThere(pending, oldest); }
        SizeWithout(pending, oldest);
        log := log[oldest := Get(log, oldest) + Lost(pending[oldest].datagrams)];
        pending := pending - {oldest};
        evicted := evicted + {oldest};
        assert View() == Evicted(before, oldest) by { EvictedIs(before, oldest, View()); }
        forall more | Capped(View(), more).Some?
          ensures Capped(old(View()), (victims + [oldest]) + more) == Capped(View(), more)
        {
          CappedFirst(before, oldest, more);
          Assoc(victims, [oldest], more);
        }
        victims := victims + [oldest];
      }
      assert Capped(View(), []) == Some(View());
      assert victims + [] == victims;
      CappedDropsOldest(old(View()), victims);
    }

    /** A key with the least deadline. */
    method Oldest() returns (oldest: Key)
      requires |pending| > 0
      ensures IsOldest(pending, oldest)
    {
      var keys := pending.Keys;
      oldest :| oldest in keys;
      keys := keys - {oldest};
      while keys != {}
        invariant keys <= pending.Keys && oldest in pending
        invariant forall k | k in pending && k !in keys :: pending[oldest].deadline <= pending[k].deadline
        decreases keys
      {
        var k :| k in keys;
        if pending[k].deadline < pending[oldest].deadline {
          oldest := k;
        }
        keys := keys - {k};
      }
    }

    /** `handle_pending_udp_sniff`: answers whether the key had an entry. */
    method HandlePending(e: Event) returns (handled: bool, victims: seq<Key>)
      requires e.Packet? && e.key !in ready && EntriesOk(View())
      modifies this`pending, this`ready, this`log, this`evicted
      ensures handled <==> e.key in old(pending)
      ensures handled ==> Step(config, old(View()), e, victims) == Some(View())
      ensures !handled ==> View() == old(View())
    {
      hide EntryOk, Delivered, Capped;
      victims := [];
      if e.key !in pending {
        return false, victims;
      }
      handled := true;
      var was := pending[e.key];
      assert was.datagrams != [] by { EntryHolds(View(), e.key); }
      pending := pending - {e.key};
      ghost var taken := View();
      if e.now >= was.deadline || !RoomFor(was, e.payload) {
        Flush(e.key, was.datagrams);
        Forward(e.key, e.payload);
        DeliveredTwice(taken, e.key, was.datagrams, [e.payload]);
        return;
      }
      var next := Pushed(was, e.payload);
      match e.feed {
        case Matched => Flush(e.key, next.datagrams);
        case NeedMore => victims := Keep(e.key, next, old(View()));
        case NotMatched =>
          next := next.(noClue := next.noClue + 1);
          if next.noClue >= NO_CLUE_LIMIT {
            Flush(e.key, next.datagrams);
          } else {
            victims := Keep(e.key, next, old(View()));
          }
        case Failed => Flush(e.key, next.datagrams);
      }
    }

    /** Into the map, which then is cut down to its limit. */
    method Keep(key: Key, entry: Entry, ghost before: State) returns (victims: seq<Key>)
      requires View() == Unpended(before, key)
      modifies this`pending, this`log, this`evicted
      ensures Capped(before.(pending := before.pending[key := entry]), victims) == Some(View())
    {
      hide Capped, DropsOldest;
      PutBack(before.pending, key, entry);
      pending := pending[key := entry];
      assert View() == before.(pending := before.pending[key := entry]);
      victims := EnforceCapacity();
    }

    /** `handle_new_udp_sniff`: answers whether a sniffer took the packet. */
    method HandleNew(e: Event) returns (handled: bool, victims: seq<Key>)
      requires e.Packet? && e.key !in ready && e.key !in pending
      modifies this`pending, this`ready, this`log, this`evicted
      ensures handled ==> Step(config, old(View()), e, victims) == Some(View())
      ensures !handled ==> View() == old(View()) && victims == [] && !Waits(config, View(), e)
    {
      hide Delivered, Capped, Step, Waits;
      victims := [];
      NewKeyStep(config, View(), e);
      UnpendedAlready(View(), e.key);
      if e.direct {
        return false, victims;
      }
      for i := 0 to |e.first|
        invariant View() == old(View()) && victims == []
        invariant WantsMore(e.first) == WantsMore(e.first[i..])
      {
        assert e.first[i..][1..] == e.first[i + 1..];
        match e.first[i] {
          case Matched =>
            Forward(e.key, e.payload);
            return true, victims;
          case NeedMore =>
            if config.full {
              victims := Keep(e.key, NewEntry(e.payload, e.now + config.timeout), old(View()));
            } else {
              Forward(e.key, e.payload);
            }
            return true, victims;
          case NotMatched =>
          case Failed =>
        }
      }
      return false, victims;
    }

    /** `handle_udp_client_payload`. */
    method HandlePayload(e: Event) returns (victims: seq<Key>)
      requires e.Packet? && EntriesOk(View())
      modifies this`pending, this`ready, this`log, this`evicted
      ensures Step(config, old(View()), e, victims) == Some(View())
    {
      hide Delivered, Capped;
      if e.key in ready {
        pending := pending - {e.key};
        Forward(e.key, e.payload);
        assert [] + [e.payload] == [e.payload];
        return [];
      }
      var handled;
      handled, victims := HandlePending(e);
      if handled {
        return;
      }
      handled, victims := HandleNew(e);
      if handled {
        return;
      }
      assert Unpended(View(), e.key) == View() by { UnpendedAlready(View(), e.key); }
      assert [] + [e.payload] == [e.payload];
      Forward(e.key, e.payload);
    }

    /** `reap_pending_udp_sniff`: everything past its deadline is flushed. */
    method ReapExpired(now: nat) returns (victims: seq<Key>)
      requires EntriesOk(View())
      modifies this`pending, this`ready, this`log, this`evicted
      ensures Step(config, old(View()), Reap(now), victims) == Some(View())
    {
      hide EntryOk, Delivered, Capped, Flushed, DropsOldest;
      var expired := set k | k in pending && now >= pending[k].deadline;
      assert expired == ExpiredKeys(View(), now);
      var left := expired;
      assert expired - left == {};
      NothingFlushed(View());
      while left != {}
        invariant left <= expired && View() == Flushed(old(View()), expired - left)
        decreases left
      {
        var k :| k in left;
        FlushOneMore(old(View()), expired - left, k);
        assert old(pending)[k].datagrams != [] by { EntryHolds(old(View()), k); }
        assert (expired - left) + {k} == expired - (left - {k});
        var entry := pending[k];
        pending := pending - {k};
        Flush(k, entry.datagrams);
        left := left - {k};
      }
      assert expired - {} == expired;
      victims := EnforceCapacity();
    }

    /** The session of a key goes away: expired, cancelled or failed. */
    method EndSession(key: Key) returns (victims: seq<Key>)
      modifies this`ready
      ensures Step(config, old(View()), SessionEnds(key), victims) == Some(View())
    {
      ready := ready - {key};
      victims := [];
    }

    /** One event; from a sound state to a sound state, and dropping only what overflows. */
    method Handle(e: Event) returns (victims: seq<Key>)
      requires EntriesOk(View())
      modifies this
      ensures Step(config, old(View()), e, victims) == Some(View())
      ensures Sound(old(View())) ==> Sound(View()) && EvictsOnlyFromFull(config, old(View()), e, victims, View())
    {
      hide Step, Sound, EvictsOnlyFromFull;
      match e {
        case Packet(_, _, _, _, _, _) => victims := HandlePayload(e);
        case Reap(now) => victims := ReapExpired(now);
        case SessionEnds(key) => victims := EndSession(key);
      }
      if Sound(old(View())) {
        KeyFate(config, old(View()), e, victims, 0);
        StepEvictsOnlyFromFull(config, old(View()), e, victims);
      }
    }
  }

  lemma DeliveredTwice(s: State, key: Key, a: seq<Datagram>, b: seq<Datagram>)
    ensures Delivered(Delivered(s, key, a), key, b) == Delivered(s, key, a + b)
    ensures a == [] ==> Delivered(s, key, b) == Delivered(s, key, a + b)
  {
    assert Sent(a + b) == Sent(a) + Sent(b);
    Assoc(Get(s.log, key), Sent(a), Sent(b));
    assert a == [] ==> a + b == b;
  }

  lemma EvictedIs(s: State, key: Key, s': State)
    requires key in s.pending && s'.ready == s.ready && s'.pending == s.pending - {key}
    requires s'.log == s.log[key := Get(s.log, key) + Lost(s.pending[key].datagrams)] && s'.evicted == s.evicted + {key}
    ensures s' == Evicted(s, key)
  {
  }

  lemma CappedFirst(s: State, oldest: Key, more: seq<Key>)
    requires |s.pending| > MAX_PENDING && IsOldest(s.pending, oldest)
    ensures Capped(s, [oldest] + more) == Capped(Evicted(s, oldest), more)
  {
    assert ([oldest] + more)[1..] == more;
  }

  lemma EntryHolds(s: State, key: Key)
    requires EntriesOk(s) && key in s.pending
    ensures s.pending[key].datagrams != []
  {
  }

  lemma NewKeyStep(c: Config, s: State, e: Event)
    requires e.Packet? && e.key !in s.ready && e.key !in s.pending
    ensures Waits(c, s, e) <==> !e.direct && c.full && WantsMore(e.first)
    ensures !Waits(c, s, e) ==> Step(c, s, e, []) == Some(Delivered(s, e.key, [e.payload]))
    ensures Waits(c, s, e) ==> forall victims ::
              Step(c, s, e, victims) ==
                        Capped(s.(pending := s.pending[e.key := NewEntry(e.payload, e.now + c.timeout)]), victims)
  {
    hide Delivered, Capped;
    UnpendedAlready(s, e.key);
    assert Released(s, e) == [e.payload];
  }

  lemma UnpendedAlready(s: State, key: Key)
    requires key !in s.pending
    ensures Unpended(s, key) == s
  {
    assert s.pending - {key} == s.pending;
  }

  lemma NothingFlushed(s: State)
    ensures Flushed(s, {}) == s
  {
    assert Flushed(s, {}).log == s.log;
    assert s.pending - {} == s.pending;
  }

  lemma FlushOneMore(s: State, keys: set<Key>, k: Key)
    requires keys <= s.pending.Keys && k in s.pending && k !in keys
    ensures k in Flushed(s, keys).pending && Flushed(s, keys).pending[k] == s.pending[k]
    ensures Flushed(s, keys + {k}) == Delivered(Unpended(Flushed(s, keys), k), k, s.pending[k].datagrams)
  {
    hide Sent;
    var a, b := Flushed(s, keys + {k}), Delivered(Unpended(Flushed(s, keys), k), k, s.pending[k].datagrams);
    assert a.pending == b.pending;
    assert a.ready == b.ready;
    assert a.log.Keys == b.log.Keys;
    assert a.log == b.log;
  }

  /**
   Every run of the loop, whatever the packets, the sniffers and the clock do, is a run of the
   meaning. So each key's datagrams are, in order of arrival, the settled ones and then the
   cached ones; all were forwarded exactly if the key was never evicted; and with no more keys
   than the map holds none ever is.
   */
  method RunLoop(config: Config, events: seq<Event>) returns (s: State, victims: seq<seq<Key>>)
    ensures |victims| == |events| && Run(config, events, victims) == Some(s)
    ensures Sound(s)
    ensures forall k: Key :: Conserved(s, Arrivals(events, k), k)
    ensures |PacketKeys(events)| <= MAX_PENDING ==> s.evicted == {}
  {
    hide Step, Sound, Conserved, PacketKeys;
    var loop := new UdpLoop(config);
    victims := [];
    for i := 0 to |events|
      invariant fresh(loop) && loop.config == config
      invariant |victims| == i && Run(config, events[..i], victims) == Some(loop.View())
    {
      assert events[..i + 1][..i] == events[..i];
      RunConserves(config, events[..i], victims, 0);
      assert EntriesOk(loop.View()) by { SoundEntries(loop.View()); }
      var chosen := loop.Handle(events[i]);
      assert (victims + [chosen])[..i] == victims;
      victims := victims + [chosen];
    }
    assert events[..|events|] == events;
    s := State(loop.pending, loop.ready, loop.log, loop.evicted);
    forall k: Key
      ensures Sound(s) && Conserved(s, Arrivals(events, k), k)
    {
      RunConserves(config, events, victims, k);
    }
    RunConserves(config, events, victims, 0);
    if |PacketKeys(events)| <= MAX_PENDING {
      FewKeysAreNeverEvicted(config, events, victims);
    }
  }

  lemma SoundEntries(s: State)
    requires Sound(s)
    ensures EntriesOk(s)
  {
  }
}
