/**
 * The sliding-TTL account cache (AccountCache.hpp). The steady clock is a parameter of
 * every operation; histories are required to read it in order.
 */
module AccountCaches {
  import opened Bytes

  datatype Credentials = Credentials(salt: ByteSeq, verifier: ByteSeq)
  datatype Entry = Entry(data: Credentials, lastAccess: nat)
  type Table = map<ByteSeq, Entry>

  predicate Expired(e: Entry, ttl: nat, now: nat) {
    now - e.lastAccess > ttl
  }

  function Lookup(c: Table, ttl: nat, user: ByteSeq, now: nat): Option<Credentials> {
    if user !in c || Expired(c[user], ttl, now) then None else Some(c[user].data)
  }

  /** A hit slides the entry; a miss, expired or absent, leaves the table alone. */
  function Touch(c: Table, ttl: nat, user: ByteSeq, now: nat): Table {
    if Lookup(c, ttl, user, now).None? then c else c[user := c[user].(lastAccess := now)]
  }

  function Unexpired(c: Table, ttl: nat, now: nat): Table {
    map user | user in c && !Expired(c[user], ttl, now) :: c[user]
  }

  class AccountCache {
    const ttl: nat
    var table: Table

    constructor (ttl: nat)
      ensures this.ttl == ttl && table == map[]
    {
      this.ttl := ttl;
      table := map[];
    }

    method Get(user: ByteSeq, now: nat) returns (r: Option<Credentials>)
      modifies this
      ensures r == Lookup(old(table), ttl, user, now)
      ensures table == Touch(old(table), ttl, user, now)
    {
      if user !in table {
        return None;
      }
      if now - table[user].lastAccess > ttl {
        return None;
      }
      table := table[user := table[user].(lastAccess := now)];
      r := Some(table[user].data);
    }

    method Put(user: ByteSeq, data: Credentials, now: nat)
      modifies this
      ensures table == old(table)[user := Entry(data, now)]
    {
      table := table[user := Entry(data, now)];
    }

    method Invalidate(user: ByteSeq)
      modifies this
      ensures table == old(table) - {user}
    {
      table := table - {user};
    }

    /** cleanup_expired_entries: erases while it walks over the table. */
    method CleanupExpiredEntries(now: nat)
      modifies this
      ensures table == Unexpired(old(table), ttl, now)
    {
      var left := table.Keys;
      while left != {}
        invariant left <= table.Keys <= old(table).Keys
        invariant forall u :: u in table ==> table[u] == old(table)[u]
        invariant forall u :: u in old(table) && u !in left ==>
                    (u in table <==> !Expired(old(table)[u], ttl, now))
        decreases |left|
      {
        var user :| user in left;
        if now - table[user].lastAccess > ttl {
          table := table - {user};
        }
        left := left - {user};
      }
    }
  }

  // ----- histories -----

  datatype Op = Get(user: ByteSeq) | Put(user: ByteSeq, data: Credentials) | Invalidate(user: ByteSeq) | Cleanup
  datatype Event = Event(op: Op, now: nat)

  function Apply(c: Table, ttl: nat, e: Event): Table {
    match e.op
    case Get(u) => Touch(c, ttl, u, e.now)
    case Put(u, d) => c[u := Entry(d, e.now)]
    case Invalidate(u) => c - {u}
    case Cleanup => Unexpired(c, ttl, e.now)
  }

  /** The table after a history that starts with an empty cache. */
  function After(es: seq<Event>, ttl: nat): Table {
    if es == [] then map[] else Apply(After(es[..|es| - 1], ttl), ttl, es[|es| - 1])
  }

  ghost predicate InOrder(es: seq<Event>, now: nat) {
    && (forall i, j :: 0 <= i < j < |es| ==> es[i].now <= es[j].now)
    && (forall i :: 0 <= i < |es| ==> es[i].now <= now)
  }

  // ----- the reference: what a user's accesses alone say -----

  datatype Chain = NoPut | Since(data: Credentials, times: seq<nat>)

  function Extend(chain: Chain, e: Event, user: ByteSeq): Chain {
    if e.op.Cleanup? || e.op.user != user then chain
    else if e.op.Put? then Since(e.op.data, [e.now])
    else if e.op.Invalidate? || chain.NoPut? then NoPut
    else chain.(times := chain.times + [e.now])
  }

  /** The latest put of the user that was not invalidated, and all accesses since; cleanups do not count. */
  function ChainOf(es: seq<Event>, user: ByteSeq): Chain {
    if es == [] then NoPut else Extend(ChainOf(es[..|es| - 1], user), es[|es| - 1], user)
  }

  ghost predicate Spaced(times: seq<nat>, ttl: nat) {
    forall i :: 0 < i < |times| ==> times[i] - times[i - 1] <= ttl
  }

  ghost function Expected(chain: Chain, ttl: nat, now: nat): Option<Credentials> {
    if chain.Since? && Spaced(chain.times + [now], ttl) then Some(chain.data) else None
  }

  /** What the table says of one user, at a moment no earlier than the last event. */
  ghost predicate Matches(c: Table, chain: Chain, user: ByteSeq, ttl: nat, now: nat) {
    match chain
    case NoPut => user !in c
    case Since(data, times) =>
      && times != []
      && times[|times| - 1] <= now
      && (if Spaced(times, ttl) then
            if user in c then c[user] == Entry(data, times[|times| - 1])
            else now - times[|times| - 1] > ttl
          else
            user in c ==> Expired(c[user], ttl, now))
  }

  lemma MatchesLater(c: Table, chain: Chain, user: ByteSeq, ttl: nat, now: nat, later: nat)
    requires Matches(c, chain, user, ttl, now) && now <= later
    ensures Matches(c, chain, user, ttl, later)
  {
  }

  lemma SpacedSnoc(times: seq<nat>, now: nat, ttl: nat)
    requires times != []
    ensures Spaced(times + [now], ttl) <==> Spaced(times, ttl) && now - times[|times| - 1] <= ttl
  {
    var more := times + [now];
    if Spaced(more, ttl) {
      assert more[|times|] - more[|times| - 1] <= ttl;
      forall i | 0 < i < |times| ensures times[i] - times[i - 1] <= ttl {
        assert more[i] - more[i - 1] <= ttl;
      }
    }
  }

  lemma MatchesStep(c: Table, chain: Chain, e: Event, user: ByteSeq, ttl: nat)
    requires Matches(c, chain, user, ttl, e.now)
    ensures Matches(Apply(c, ttl, e), Extend(chain, e, user), user, ttl, e.now)
  {
    if e.op == Get(user) && chain.Since? {
      SpacedSnoc(chain.times, e.now, ttl);
    }
  }

  lemma {:induction false} AfterMatches(es: seq<Event>, user: ByteSeq, ttl: nat, now: nat)
    requires InOrder(es, now)
    ensures Matches(After(es, ttl), ChainOf(es, user), user, ttl, now)
  {
    if es != [] {
      var front, e := es[..|es| - 1], es[|es| - 1];
      AfterMatches(front, user, ttl, e.now);
      MatchesStep(After(front, ttl), ChainOf(front, user), e, user, ttl);
      MatchesLater(After(es, ttl), ChainOf(es, user), user, ttl, e.now, now);
    }
  }

  /**
   * A get hits exactly when the user has a put that was not invalidated and all accesses
   * since, this one included, are at most ttl apart; and then it returns that put's data.
   */
  lemma HitCriterion(es: seq<Event>, user: ByteSeq, ttl: nat, now: nat)
    requires InOrder(es, now)
    ensures Lookup(After(es, ttl), ttl, user, now) == Expected(ChainOf(es, user), ttl, now)
  {
    AfterMatches(es, user, ttl, now);
    if ChainOf(es, user).Since? {
      SpacedSnoc(ChainOf(es, user).times, now, ttl);
    }
  }

  function WithoutCleanups(es: seq<Event>): seq<Event> {
    if es == [] then []
    else WithoutCleanups(es[..|es| - 1]) + if es[|es| - 1].op.Cleanup? then [] else [es[|es| - 1]]
  }

  lemma {:induction false} StripChain(es: seq<Event>, user: ByteSeq)
    ensures ChainOf(WithoutCleanups(es), user) == ChainOf(es, user)
  {
    if es != [] {
      var front, e := es[..|es| - 1], es[|es| - 1];
      StripChain(front, user);
      var kept := WithoutCleanups(front);
      if e.op.Cleanup? {
        assert kept + [] == kept;
      } else {
        assert (kept + [e])[..|kept|] == kept;
      }
    }
  }

  /** Cleanups inserted anywhere in a history change no get result. */
  lemma CleanupInvisible(a: seq<Event>, b: seq<Event>, user: ByteSeq, ttl: nat, now: nat)
    requires InOrder(a, now) && InOrder(b, now)
    requires WithoutCleanups(a) == WithoutCleanups(b)
    ensures Lookup(After(a, ttl), ttl, user, now) == Lookup(After(b, ttl), ttl, user, now)
  {
    StripChain(a, user);
    StripChain(b, user);
    HitCriterion(a, user, ttl, now);
    HitCriterion(b, user, ttl, now);
  }

  /**
   * A cleanup keeps exactly the entries that a get at that moment would hit, with the data of
   * the put and the time of the last access: nothing expired stays in memory.
   */
  lemma CleanupReclaims(es: seq<Event>, user: ByteSeq, ttl: nat, now: nat)
    requires InOrder(es, now)
    ensures var chain, kept := ChainOf(es, user), After(es + [Event(Cleanup, now)], ttl);
            && (user in kept <==> Expected(chain, ttl, now).Some?)
            && (user in kept ==> chain.times != [] && kept[user] == Entry(chain.data, chain.times[|chain.times| - 1]))
  {
    var all := es + [Event(Cleanup, now)];
    assert all[..|all| - 1] == es;
    AfterMatches(es, user, ttl, now);
    HitCriterion(es, user, ttl, now);
    if ChainOf(es, user).Since? {
      SpacedSnoc(ChainOf(es, user).times, now, ttl);
    }
  }
}
