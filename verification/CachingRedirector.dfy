/**
  The cache of shard owners. Goroutines share it under a lock, so a run is a sequence of the
  locked sections, taken in any order, and what a goroutine read before is only a snapshot.
 */
module CachingRedirector {
  import opened Wrappers

  type Shard = int
  type Address = string
  type Time = int

  /** The zero time: no deadline. */
  const UNSET: Time := 0

  datatype Entry = Entry(shard: Shard, address: Address, staleAt: Time)

  type Cache = map<Shard, Entry>

  predicate Fresh(e: Entry, now: Time) {
    e.staleAt == UNSET || now < e.staleAt
  }

  /** The locked sections. A lookup result is the owner membership names, or none if it fails. */
  datatype Event =
    | Fill(shard: Shard, now: Time, owner: Option<Address>)
    | HostDown(address: Address)
    | OwnershipLost(op: Entry, newOwner: Address)
    | StaleCheck(now: Time, ttl: int, owners: Shard -> Option<Address>)

  // ------------------------------------------- what each section does

  function Checked(e: Entry, now: Time, ttl: int, owner: Option<Address>): Option<Entry> {
    if e.staleAt != UNSET then if now > e.staleAt then None else Some(e)
    else if ttl > 0 && owner != Some(e.address) then Some(e.(staleAt := now + ttl))
    else Some(e)
  }

  /** The entry of one shard after an event, given the one it had: the reference for the cache. */
  function EntryAfter(shard: Shard, before: Option<Entry>, ev: Event): Option<Entry> {
    match ev
    case Fill(s, now, owner) =>
      if s != shard || (before.Some? && Fresh(before.value, now)) then before
      else if owner.Some? then Some(Entry(s, owner.value, UNSET))
      else None
    case HostDown(address) => if before.Some? && before.value.address == address then None else before
    case OwnershipLost(op, owner) =>
      if op.shard != shard then before
      else if Redirects(op, owner) then Some(Entry(shard, owner, UNSET))
      else if before.Some? && before.value.address == op.address then None
      else before
    case StaleCheck(now, ttl, owners) =>
      if before.None? then None else Checked(before.value, now, ttl, owners(shard))
  }

  /** An owner named in an error is followed if there is one and it is another host. */
  predicate Redirects(op: Entry, owner: Address) {
    owner != "" && owner != op.address
  }

  function Get(c: Cache, s: Shard): Option<Entry> {
    if s in c then Some(c[s]) else None
  }

  /** Every shard's entry, and nothing else. */
  ghost predicate Follows(c: Cache, ev: Event, c': Cache) {
    forall s :: Get(c', s) == EntryAfter(s, Get(c, s), ev)
  }

  ghost predicate FollowsExcept(c: Cache, ev: Event, c': Cache, todo: set<Shard>) {
    forall s :: Get(c', s) == if s in todo then Get(c, s) else EntryAfter(s, Get(c, s), ev)
  }

  /** Every entry sits under its own shard. */
  ghost predicate Filed(c: Cache) {
    forall s :: s in c ==> c[s].shard == s
  }

  datatype Outcome = Done | Unreachable | Refused | NotOwner(owner: Address)

  /** One turn of the redirect loop: what the host answers, and what others do to the cache meanwhile. */
  datatype Turn = Turn(outcome: Outcome, others: seq<Event>)

  class Redirector {
    var cache: Cache

    constructor ()
      ensures cache == map[]
    {
      cache := map[];
    }

    method CacheAdd(shard: Shard, address: Address) returns (e: Entry)
      modifies this
      ensures e == Entry(shard, address, UNSET) && cache == old(cache)[shard := e]
    {
      e := Entry(shard, address, UNSET);
      cache := cache[shard := e];
    }

    /** The part of a lookup done under the write lock, after a first read found nothing fresh. */
    method FillEntry(shard: Shard, now: Time, owner: Option<Address>) returns (r: Result<Entry>)
      modifies this
      ensures Follows(old(cache), Fill(shard, now, owner), cache)
      ensures r.Success? <==> shard in cache
      ensures r.Success? ==> r.value == cache[shard] && Fresh(r.value, now)
    {
      if shard in cache {
        if Fresh(cache[shard], now) {
          return Success(cache[shard]);
        }
        cache := cache - {shard};
      }
      if owner.None? {
        return Failure("no owner");
      }
      var e := CacheAdd(shard, owner.value);
      r := Success(e);
    }

    method DeleteByAddress(address: Address)
      modifies this
      ensures Follows(old(cache), HostDown(address), cache)
    {
      var todo := cache.Keys;
      while todo != {}
        invariant FollowsExcept(old(cache), HostDown(address), cache, todo)
        decreases todo
      {
        SomeLeft(todo);
        var s :| s in todo;
        if s in cache && cache[s].address == address {
          cache := cache - {s};
        }
        todo := todo - {s};
      }
    }

    method HandleOwnershipLost(op: Entry, owner: Address) returns (e: Option<Entry>)
      requires Filed(cache)
      modifies this
      ensures Follows(old(cache), OwnershipLost(op, owner), cache)
      ensures e.Some? <==> Redirects(op, owner)
      ensures e.Some? ==> e.value == Entry(op.shard, owner, UNSET)
    {
      if op.shard in cache {
        var cached := cache[op.shard];
        if cached.address == op.address {
          cache := cache - {cached.shard};
        }
      }
      if owner != "" && owner != op.address {
        var added := CacheAdd(op.shard, owner);
        return Some(added);
      }
      e := None;
    }

    method CheckStale(now: Time, ttl: int, owners: Shard -> Option<Address>)
      modifies this
      ensures Follows(old(cache), StaleCheck(now, ttl, owners), cache)
    {
      var todo := cache.Keys;
      while todo != {}
        invariant todo <= old(cache).Keys
        invariant FollowsExcept(old(cache), StaleCheck(now, ttl, owners), cache, todo)
        decreases todo
      {
        SomeLeft(todo);
        var s :| s in todo;
        assert Get(cache, s) == Get(old(cache), s);
        var e := cache[s];
        if e.staleAt != UNSET {
          if now > e.staleAt {
            cache := cache - {s};
          }
        } else if ttl > 0 {
          var owner := owners(s);
          if owner.None? || owner.value != e.address {
            cache := cache[s := e.(staleAt := now + ttl)];
          }
        }
        todo := todo - {s};
      }
    }

    /** Any locked sections of other goroutines. */
    method Interfere(events: seq<Event>)
      requires Filed(cache)
      modifies this
      ensures Run(old(cache), events, cache) && Filed(cache)
    {
      hide Follows, Filed;
      assert events[..0] == [];
      for i := 0 to |events|
        invariant Run(old(cache), events[..i], cache) && Filed(cache)
      {
        ghost var before := cache;
        match events[i] {
          case Fill(shard, now, owner) =>
            var _ := FillEntry(shard, now, owner);
          case HostDown(address) => DeleteByAddress(address);
          case OwnershipLost(op, owner) =>
            var _ := HandleOwnershipLost(op, owner);
          case StaleCheck(now, ttl, owners) => CheckStale(now, ttl, owners);
        }
        StaysFiled(before, events[i], cache);
        RunStep(old(cache), events[..i], before, events[i], cache);
        assert events[..i] + [events[i]] == events[..i + 1];
      }
      assert events[..|events|] == events;
    }

    /** A read, with `others` between the first look and the locked one, and the clock at both. */
    method GetOrCreateEntry(shard: Shard, now: Time, others: seq<Event>, later: Time, owner: Option<Address>)
      returns (r: Result<Entry>)
      requires Filed(cache)
      modifies this
      ensures Filed(cache)
      ensures var seen := Get(old(cache), shard);
        if seen.Some? && Fresh(seen.value, now) then r == Success(seen.value) && cache == old(cache)
        else
          && Run(old(cache), others + [Fill(shard, later, owner)], cache)
          && (r.Success? <==> shard in cache)
          && (r.Success? ==> r.value == cache[shard])
    {
      hide Follows, Filed;
      if shard in cache && Fresh(cache[shard], now) {
        return Success(cache[shard]);
      }
      Interfere(others);
      ghost var before := cache;
      r := FillEntry(shard, later, owner);
      StaysFiled(before, Fill(shard, later, owner), cache);
      RunStep(old(cache), others, before, Fill(shard, later, owner), cache);
    }

    /** The attempts for one operation; when the turns are used up the context has expired. */
    method RedirectLoop(first: Entry, turns: seq<Turn>) returns (r: Option<Outcome>, attempts: seq<Address>)
      requires Filed(cache)
      modifies this
      ensures Filed(cache) && |attempts| <= |turns|
      ensures attempts != [] ==> attempts[0] == first.address
      ensures forall i :: 0 < i < |attempts| ==> Redirected(turns, attempts, i)
      ensures if |attempts| == 0 then turns == [] && r.None?
        else
          var n := |attempts| - 1;
          var last := turns[n].outcome;
          if r.None? then n == |turns| - 1 && last.NotOwner? && last.owner !in ["", attempts[n]]
          else r.value == last && (last.NotOwner? ==> last.owner in ["", attempts[n]])
      ensures r == Some(Unreachable) ==> forall s :: s in cache ==> cache[s].address != attempts[|attempts| - 1]
      ensures r.Some? && r.value.NotOwner? && first.shard in cache ==>
        cache[first.shard].address != attempts[|attempts| - 1]
    {
      hide Filed;
      var op := first;
      attempts := [];
      for i := 0 to |turns|
        invariant Filed(cache) && |attempts| == i && op.shard == first.shard
        invariant i == 0 ==> op == first
        invariant i > 0 ==> attempts[0] == first.address && turns[i - 1].outcome == NotOwner(op.address)
        invariant i > 0 ==> op.address !in ["", attempts[i - 1]]
        invariant forall j :: 0 < j < |attempts| ==> Redirected(turns, attempts, j)
      {
        ghost var earlier := attempts;
        attempts := attempts + [op.address];
        forall j | 0 < j < |attempts| ensures Redirected(turns, attempts, j) {
          assert j < i ==> Redirected(turns, earlier, j);
        }
        Interfere(turns[i].others);
        ghost var before := cache;
        match turns[i].outcome {
          case Done => return Some(Done), attempts;
          case Refused => return Some(Refused), attempts;
          case Unreachable =>
            DeleteByAddress(op.address);
            StaysFiled(before, HostDown(op.address), cache);
            HostIsGone(before, op.address, cache);
            return Some(Unreachable), attempts;
          case NotOwner(owner) =>
            var next := HandleOwnershipLost(op, owner);
            StaysFiled(before, OwnershipLost(op, owner), cache);
            if next.None? {
              assert Get(cache, op.shard) == EntryAfter(op.shard, Get(before, op.shard), OwnershipLost(op, owner));
              return Some(NotOwner(owner)), attempts;
            }
            op := next.value;
        }
      }
      r := None;
    }
  }

  lemma SomeLeft(todo: set<Shard>)
    requires todo != {}
    ensures exists s :: s in todo
  {
    assert (forall s :: s !in todo) ==> todo == {};
  }

  /** Each further attempt goes to the owner the last one named, never to the host that named it. */
  ghost predicate Redirected(turns: seq<Turn>, attempts: seq<Address>, i: int) {
    && 0 < i < |attempts| <= |turns| && turns[i - 1].outcome.NotOwner?
    && attempts[i] == turns[i - 1].outcome.owner && attempts[i] != attempts[i - 1]
  }

  lemma HostIsGone(c: Cache, address: Address, c': Cache)
    requires Follows(c, HostDown(address), c')
    ensures forall s :: s in c' ==> c'[s].address != address
  {
    forall s | s in c' ensures c'[s].address != address {
      assert Get(c', s) == EntryAfter(s, Get(c, s), HostDown(address));
    }
  }

  // ------------------------------------------------------------- runs

  /** The entry of one shard over a run. */
  function EntryAfterAll(s: Shard, before: Option<Entry>, events: seq<Event>): Option<Entry> {
    if events == [] then before
    else EntryAfter(s, EntryAfterAll(s, before, events[..|events| - 1]), events[|events| - 1])
  }

  ghost predicate Run(c: Cache, events: seq<Event>, c': Cache) {
    forall s :: Get(c', s) == EntryAfterAll(s, Get(c, s), events)
  }

  lemma RunStep(c: Cache, events: seq<Event>, mid: Cache, ev: Event, c': Cache)
    requires Run(c, events, mid) && Follows(mid, ev, c')
    ensures Run(c, events + [ev], c')
  {
    forall s ensures Get(c', s) == EntryAfterAll(s, Get(c, s), events + [ev]) {
      assert Get(mid, s) == EntryAfterAll(s, Get(c, s), events);
      assert Get(c', s) == EntryAfter(s, Get(mid, s), ev);
      assert (events + [ev])[..|events|] == events;
    }
  }

  lemma StaysFiled(c: Cache, ev: Event, c': Cache)
    requires Filed(c) && Follows(c, ev, c')
    ensures Filed(c')
  {
    forall s | s in c' ensures c'[s].shard == s {
      assert Get(c', s) == EntryAfter(s, Get(c, s), ev);
    }
  }

  /** Every entry sits under its own shard, whatever the interleaving. */
  lemma {:induction false} EveryRunStaysFiled(c: Cache, events: seq<Event>, c': Cache)
    requires Filed(c) && Run(c, events, c')
    ensures Filed(c')
  {
    forall s | s in c' ensures c'[s].shard == s {
      assert Get(c', s) == EntryAfterAll(s, Get(c, s), events);
      OwnShard(s, Get(c, s), events);
    }
  }

  lemma {:induction false} OwnShard(s: Shard, before: Option<Entry>, events: seq<Event>)
    requires before.Some? ==> before.value.shard == s
    ensures EntryAfterAll(s, before, events).Some? ==> EntryAfterAll(s, before, events).value.shard == s
  {
    if events == [] {
    } else {
      OwnShard(s, before, events[..|events| - 1]);
    }
  }

  // ---------------------------------------------------- stale entries

  /** The event puts a new entry under the shard. */
  predicate Adds(s: Shard, before: Option<Entry>, ev: Event) {
    match ev
    case Fill(shard, now, owner) => shard == s && owner.Some? && !(before.Some? && Fresh(before.value, now))
    case OwnershipLost(op, owner) => op.shard == s && Redirects(op, owner)
    case _ => false
  }

  ghost predicate NothingAdded(s: Shard, before: Option<Entry>, events: seq<Event>) {
    forall i :: 0 <= i < |events| ==> !Adds(s, EntryAfterAll(s, before, events[..i]), events[i])
  }

  /** A marked entry is never unmarked: until something is added it stays as it is or goes. */
  lemma {:induction false} MarkStays(s: Shard, e: Entry, before: Option<Entry>, events: seq<Event>)
    requires e.staleAt != UNSET && (before.None? || before == Some(e)) && NothingAdded(s, before, events)
    ensures EntryAfterAll(s, before, events).None? || EntryAfterAll(s, before, events) == Some(e)
  {
    if events == [] {
    } else {
      var n := |events| - 1;
      forall i | 0 <= i < n ensures !Adds(s, EntryAfterAll(s, before, events[..n][..i]), events[..n][i]) {
        assert events[..n][..i] == events[..i];
      }
      MarkStays(s, e, before, events[..n]);
      assert !Adds(s, EntryAfterAll(s, before, events[..n]), events[n]);
    }
  }

  /**
    A membership check at time `t` that finds the cached owner wrong bounds how long it is used.
    A read that begins afterwards with the clock at or past `t + ttl`, with nothing added for the
    shard before it returns, yields what membership then names, whatever else others did.
   */
  lemma StaleOwnerIsNotServed(
    c0: Cache, s: Shard, t: Time, ttl: int, owners: Shard -> Option<Address>,
    c1: Cache, between: seq<Event>, c2: Cache,
    now: Time, others: seq<Event>, later: Time, owner: Option<Address>, c3: Cache)
    requires Follows(c0, StaleCheck(t, ttl, owners), c1) && Run(c1, between, c2)
    requires Run(c2, others + [Fill(s, later, owner)], c3)
    requires s in c0 && c0[s].staleAt == UNSET && owners(s) != Some(c0[s].address) && t > 0 && ttl > 0
    requires NothingAdded(s, Get(c1, s), between) && NothingAdded(s, Get(c2, s), others)
    requires t + ttl <= now <= later
    ensures Get(c1, s) == Some(c0[s].(staleAt := t + ttl))
    ensures !(s in c2 && Fresh(c2[s], now))
    ensures Get(c3, s) == if owner.Some? then Some(Entry(s, owner.value, UNSET)) else None
  {
    var e := c0[s].(staleAt := t + ttl);
    assert Get(c1, s) == EntryAfter(s, Get(c0, s), StaleCheck(t, ttl, owners));
    assert Get(c2, s) == EntryAfterAll(s, Get(c1, s), between);
    MarkStays(s, e, Get(c1, s), between);
    MarkStays(s, e, Get(c2, s), others);
    var events := others + [Fill(s, later, owner)];
    assert events[..|others|] == others;
    assert Get(c3, s) == EntryAfterAll(s, Get(c2, s), events);
  }
}
