/** The logon challenge of HandlersAuth.cpp: cache first, then the database. */
module Handlers {
  import opened Bytes
  import opened BigEndian
  import opened ByteBuffers
  import opened Packets
  import opened Utf8
  import opened AccountCaches
  import opened Srp6s

  // Opcodes and codes of AuthOpcodes.hpp and WorkOpcodes.hpp.
  const CMSG_PING: nat := 1
  const SMSG_PONG: nat := 2
  const CMSG_CHALLENGE: nat := 3
  const SMSG_CHALLENGE: nat := 4
  const CMSG_PROOF: nat := 5
  const SMSG_PROOF: nat := 6
  const SMSG_RESPONSE: nat := 7

  const AUTH_FAILED: Byte := 1
  const INTERNAL_ERROR: Byte := 0
  const WRONG_USERNAME: Byte := 1
  const WRONG_PASSWORD: Byte := 2
  const DATABASE_BUSY: Byte := 3

  datatype Row = Row(salt: Option<ByteSeq>, verifier: Option<ByteSeq>)
  type Database = map<ByteSeq, Row>

  /** What a handler run finds outside the session. */
  datatype Env = Env(hash: Hash, db: Database, ttl: nat)

  function Refusal(code: Byte): Packet {
    Packet(SMSG_RESPONSE, [AUTH_FAILED, code])
  }

  predicate ValidRow(db: Database, user: ByteSeq) {
    && user in db
    && db[user].salt.Some? && db[user].verifier.Some?
    && |db[user].salt.value| == 32 && |db[user].verifier.value| == 32
  }

  function RowCredentials(db: Database, user: ByteSeq): Credentials
    requires ValidRow(db, user)
  {
    Credentials(db[user].salt.value, db[user].verifier.value)
  }

  /** B, g, N and the salt; None where padding would throw. */
  function ChallengePayload(s: Srp, salt: ByteSeq): Option<ByteSeq> {
    if NumberBytes(s.pubB).Some? && NumberBytes(s.modulus).Some? then
      Some(NumberBytes(s.pubB).value + [s.g % 256] + NumberBytes(s.modulus).value + salt)
    else None
  }

  function Prepare(s: Srp, c: Credentials, b: nat): Srp {
    GenerateServerEphemeral(LoadVerifier(s, c.salt, c.verifier), b)
  }

  datatype Outcome = Outcome(srp: Srp, table: Table, reply: Option<Packet>)

  /** The name in the packet, as the server understands it. */
  function UsernameOf(payload: ByteSeq): ByteSeq {
    ByteBuffers.Decode(StringNt(LittleEnd), payload).value.0.s
  }

  /** handle_logon_challenge, for a random b, a clock and a database that answers or not. */
  function LogonChallenge(srp: Srp, table: Table, payload: ByteSeq, env: Env, now: nat, b: nat, dbUp: bool): Outcome {
    var name := UsernameOf(payload);
    if !Accepts(name) then Outcome(srp, table, Some(Refusal(WRONG_USERNAME))) else
      var user := MapCase(name, Upper);
      var named := srp.(username := user);
      match Lookup(table, env.ttl, user, now)
      case Some(c) =>
        // The cached branch has no handler around the padding: a throw would leave no reply.
        var ready := Prepare(named, c, b);
        var reply := match ChallengePayload(ready, c.salt)
                     case Some(p) => Some(Packet(SMSG_CHALLENGE, p))
                     case None => None;
        Outcome(ready, Touch(table, env.ttl, user, now), reply)
      case None =>
        if !dbUp then Outcome(named, table, Some(Refusal(DATABASE_BUSY)))
        else if user !in env.db then Outcome(named, table, Some(Refusal(WRONG_USERNAME)))
        else if !ValidRow(env.db, user) then Outcome(named, table, Some(Refusal(WRONG_PASSWORD)))
        else
          var c := RowCredentials(env.db, user);
          var ready := Prepare(named, c, b);
          var reply := match ChallengePayload(ready, c.salt)
                       case Some(p) => Packet(SMSG_CHALLENGE, p)
                       case None => Refusal(DATABASE_BUSY);
          Outcome(ready, table[user := Entry(c, now)], Some(reply))
  }

  // ----- the cache agrees with the database it fronts -----

  ghost predicate Agrees(table: Table, db: Database) {
    forall u :: u in table ==>
      ValidRow(db, u) && table[u].data == RowCredentials(db, u) && MapCase(u, Upper) == u
  }

  /** No challenge, whatever its packet, time, random number or database failure, breaks the agreement. */
  lemma ChallengeKeepsAgreement(srp: Srp, table: Table, payload: ByteSeq, env: Env, now: nat, b: nat, dbUp: bool)
    requires Agrees(table, env.db)
    ensures Agrees(LogonChallenge(srp, table, payload, env, now, b, dbUp).table, env.db)
  {
    LaterCaseWins(UsernameOf(payload), Upper, Upper);
  }

  /** Nor does anything else that happens to the cache. */
  lemma CacheUpkeepKeepsAgreement(table: Table, db: Database, ttl: nat, user: ByteSeq, now: nat)
    requires Agrees(table, db)
    ensures Agrees(Touch(table, ttl, user, now), db)
    ensures Agrees(Unexpired(table, ttl, now), db)
    ensures Agrees(table - {user}, db)
  {
  }

  ghost predicate ServerSide(s: Srp) {
    s.modulus == MODULUS && s.g == GENERATOR
  }

  lemma ChallengeReplyFits(s: Srp, c: Credentials, b: nat)
    requires ServerSide(s) && |c.salt| == 32
    ensures var ready := Prepare(s, c, b);
            && ServerSide(ready) && NumberBytes(ready.pubB).Some? && NumberBytes(MODULUS).Some?
            && ChallengePayload(ready, c.salt).Some?
            && |ChallengePayload(ready, c.salt).value| == 97
            && ChallengePayload(ready, c.salt).value ==
               NumberBytes(ready.pubB).value + [7] + NumberBytes(MODULUS).value + c.salt
  {
    var ready := Prepare(s, c, b);
    NumberBytesRoundTrip(ready.pubB);
    NumberBytesRoundTrip(MODULUS);
  }

  /**
   * For an account with a valid row, a challenge is answered by 97 bytes that do not depend
   * on whether, or when, the account was cached: only b makes a difference.
   */
  lemma HitEqualsMiss(srp: Srp, table: Table, payload: ByteSeq, env: Env, now: nat, b: nat, dbUp: bool)
    requires ServerSide(srp) && Agrees(table, env.db)
    requires Accepts(UsernameOf(payload))
    requires var user := MapCase(UsernameOf(payload), Upper);
             ValidRow(env.db, user) && (dbUp || Lookup(table, env.ttl, user, now).Some?)
    ensures var user := MapCase(UsernameOf(payload), Upper);
            var c := RowCredentials(env.db, user);
            var ready := Prepare(srp.(username := user), c, b);
            var out := LogonChallenge(srp, table, payload, env, now, b, dbUp);
            && out.srp == ready && ServerSide(ready) && NumberBytes(ready.pubB).Some?
            && ChallengePayload(ready, c.salt).Some? && |ChallengePayload(ready, c.salt).value| == 97
            && out.reply == Some(Packet(SMSG_CHALLENGE, ChallengePayload(ready, c.salt).value))
  {
    var user := MapCase(UsernameOf(payload), Upper);
    ChallengeReplyFits(srp.(username := user), RowCredentials(env.db, user), b);
  }

  // ----- every challenge and its answer, in bytes -----

  /** The account is in the cache and fresh, or the database can be asked and has a proper row. */
  predicate Answerable(table: Table, user: ByteSeq, env: Env, now: nat, dbUp: bool) {
    || (user in table && now <= table[user].lastAccess + env.ttl)
    || (dbUp && ValidRow(env.db, user))
  }

  /** SMSG_AUTH_LOGON_CHALLENGE of 97 bytes: B, g, N and the salt. */
  function ChallengeBytes(pubB: nat, salt: ByteSeq): ByteSeq {
    [4, 0, 97] + (ToBE(pubB, 32) + [7] + ToBE(MODULUS, 32) + salt)
  }

  /** B of section 2.5.3 of RFC 5054 for g = 7. */
  function PublicFor(k: nat, verifier: ByteSeq, b: nat): nat {
    (k * FromBE(verifier) + Pow(7, b)) % MODULUS
  }

  /** SMSG_AUTH_RESPONSE with AUTH_FAILED and an error code. */
  function RefusalBytes(code: Byte): ByteSeq {
    [7, 0, 2, 1, code]
  }

  function AnswerBytes(k: nat, table: Table, payload: ByteSeq, env: Env, now: nat, b: nat, dbUp: bool): ByteSeq
    requires Agrees(table, env.db)
  {
    var name := UsernameOf(payload);
    var user := MapCase(name, Upper);
    if Accepts(name) && Answerable(table, user, env, now, dbUp) then
      var c := RowCredentials(env.db, user);
      ChallengeBytes(PublicFor(k, c.verifier, b), c.salt)
    else if !Accepts(name) || (dbUp && user !in env.db) then RefusalBytes(1)   // wrong username
    else if dbUp then RefusalBytes(2)                                         // wrong password
    else RefusalBytes(3)                                                      // database busy
  }

  lemma RefusalOnWire(code: Byte)
    ensures Build(Auth, Refusal(code)) == RefusalBytes(code)
  {
  }

  lemma PreparedB(s: Srp, c: Credentials, b: nat)
    requires ServerSide(s)
    ensures Prepare(s, c, b).pubB == PublicFor(s.k, c.verifier, b)
    ensures ServerSide(Prepare(s, c, b)) && Prepare(s, c, b).pubB < TWO256
  {
    ServerEphemeralIsRfc5054(LoadVerifier(s, c.salt, c.verifier), b);
  }

  lemma PayloadBytes(s: Srp, salt: ByteSeq)
    requires ServerSide(s) && s.pubB < TWO256 && |salt| == 32
    ensures ChallengePayload(s, salt).Some?
    ensures Build(Auth, Packet(SMSG_CHALLENGE, ChallengePayload(s, salt).value)) ==
            ChallengeBytes(s.pubB, salt)
  {
    FixedBytes(s.pubB);
    FixedBytes(MODULUS);
    SmallPacket(SMSG_CHALLENGE, ChallengePayload(s, salt).value);
  }

  lemma FixedBytes(x: nat)
    requires x < TWO256
    ensures NumberBytes(x) == Some(ToBE(x, 32))
  {
    Pow256Of32();
    PadIsFixedWidth(x, 32);
  }

  lemma SmallPacket(opcode: Byte, payload: ByteSeq)
    requires |payload| < 256
    ensures Build(Auth, Packet(opcode, payload)) == [opcode, 0, |payload|] + payload
  {
    assert WordBytes(|payload|) == [0, |payload|];
  }

  lemma AnswerOnWire(s: Srp, c: Credentials, b: nat)
    requires ServerSide(s) && |c.salt| == 32
    ensures ChallengePayload(Prepare(s, c, b), c.salt).Some?
    ensures Build(Auth, Packet(SMSG_CHALLENGE, ChallengePayload(Prepare(s, c, b), c.salt).value)) ==
            ChallengeBytes(PublicFor(s.k, c.verifier, b), c.salt)
  {
    PreparedB(s, c, b);
    PayloadBytes(Prepare(s, c, b), c.salt);
    var x, y := Prepare(s, c, b).pubB, PublicFor(s.k, c.verifier, b);
    assert x == y;
    assert ChallengeBytes(x, c.salt) == ChallengeBytes(y, c.salt);
  }

  /** Every challenge is answered, and the bytes are determined by the name, the cache and the database. */
  lemma EveryChallengeAnswered(srp: Srp, table: Table, payload: ByteSeq, env: Env, now: nat, b: nat, dbUp: bool)
    requires ServerSide(srp) && Agrees(table, env.db)
    ensures var out := LogonChallenge(srp, table, payload, env, now, b, dbUp);
            && out.reply.Some? && HasOpcode(Auth, out.reply.value)
            && Build(Auth, out.reply.value) == AnswerBytes(srp.k, table, payload, env, now, b, dbUp)
  {
    var name := UsernameOf(payload);
    var user := MapCase(name, Upper);
    if Accepts(name) && Answerable(table, user, env, now, dbUp) {
      AnswerOnWire(srp.(username := user), RowCredentials(env.db, user), b);
    } else {
      RefusalOnWire(1); RefusalOnWire(2); RefusalOnWire(3);
    }
  }

  /** The state of a session that has been prepared for an account. */
  function ReadyFor(s: Srp, user: ByteSeq, c: Credentials, b: nat): Srp {
    s.(username := user, salt := c.salt, v := FromBE(c.verifier), b := b,
       pubB := PublicFor(s.k, c.verifier, b))
  }

  lemma PrepareIs(s: Srp, user: ByteSeq, c: Credentials, b: nat)
    requires ServerSide(s)
    ensures Prepare(s.(username := user), c, b) == ReadyFor(s, user, c, b)
  {
    PreparedB(s.(username := user), c, b);
  }

  lemma CacheAfterChallenge(srp: Srp, table: Table, payload: ByteSeq, env: Env, now: nat, b: nat, dbUp: bool)
    requires Agrees(table, env.db)
    ensures var out := LogonChallenge(srp, table, payload, env, now, b, dbUp);
            var user := MapCase(UsernameOf(payload), Upper);
            out.table == if Accepts(UsernameOf(payload)) && Answerable(table, user, env, now, dbUp)
                         then table[user := Entry(RowCredentials(env.db, user), now)] else table
  {
  }

  lemma SrpAfterChallenge(srp: Srp, table: Table, payload: ByteSeq, env: Env, now: nat, b: nat, dbUp: bool)
    requires Agrees(table, env.db)
    ensures var out := LogonChallenge(srp, table, payload, env, now, b, dbUp);
            var user := MapCase(UsernameOf(payload), Upper);
            out.srp == if !Accepts(UsernameOf(payload)) then srp
                       else if !Answerable(table, user, env, now, dbUp) then srp.(username := user)
                       else Prepare(srp.(username := user), RowCredentials(env.db, user), b)
  {
  }

  /**
   * What a challenge leaves behind: when it is answered by a challenge, the SRP state of the
   * account and its row in the cache, accessed now; otherwise at most the name.
   */
  lemma ChallengeEffect(srp: Srp, table: Table, payload: ByteSeq, env: Env, now: nat, b: nat, dbUp: bool)
    requires ServerSide(srp) && Agrees(table, env.db)
    ensures var out := LogonChallenge(srp, table, payload, env, now, b, dbUp);
            var user := MapCase(UsernameOf(payload), Upper);
            if !Accepts(UsernameOf(payload)) then out.srp == srp && out.table == table
            else if !Answerable(table, user, env, now, dbUp) then out.srp == srp.(username := user) && out.table == table
            else
              var c := RowCredentials(env.db, user);
              out.srp == ReadyFor(srp, user, c, b) && out.table == table[user := Entry(c, now)]
  {
    var user := MapCase(UsernameOf(payload), Upper);
    CacheAfterChallenge(srp, table, payload, env, now, b, dbUp);
    SrpAfterChallenge(srp, table, payload, env, now, b, dbUp);
    if Accepts(UsernameOf(payload)) && Answerable(table, user, env, now, dbUp) {
      PrepareIs(srp, user, RowCredentials(env.db, user), b);
    }
  }

  /**
   * An account once answered is answered again for as long as its accesses are at most ttl
   * apart, whether or not the database is up.
   */
  lemma AnsweredFromCache(srp: Srp, table: Table, payload: ByteSeq, env: Env, now: nat, b: nat, dbUp: bool,
                          srp': Srp, payload': ByteSeq, later: nat, b': nat)
    requires ServerSide(srp) && ServerSide(srp') && Agrees(table, env.db)
    requires Accepts(UsernameOf(payload)) && Accepts(UsernameOf(payload'))
    requires MapCase(UsernameOf(payload), Upper) == MapCase(UsernameOf(payload'), Upper)
    requires Answerable(table, MapCase(UsernameOf(payload), Upper), env, now, dbUp) && now <= later <= now + env.ttl
    ensures var user := MapCase(UsernameOf(payload), Upper);
            var cached := LogonChallenge(srp, table, payload, env, now, b, dbUp).table;
            var out := LogonChallenge(srp', cached, payload', env, later, b', false);
            var c := RowCredentials(env.db, user);
            && out.reply.Some?
            && Build(Auth, out.reply.value) == ChallengeBytes(PublicFor(srp'.k, c.verifier, b'), c.salt)
  {
    ChallengeEffect(srp, table, payload, env, now, b, dbUp);
    ChallengeKeepsAgreement(srp, table, payload, env, now, b, dbUp);
    EveryChallengeAnswered(srp', LogonChallenge(srp, table, payload, env, now, b, dbUp).table, payload', env, later, b', false);
  }
}
