# Purity Server in Dafny

This project models the wire protocol of Purity Server and the components around it, and
proves properties of that model. `dafny verify dfyconfig.toml` checks all of it. Nothing
here runs the program.

The hard core is a session as a state machine. A buffer is filled by reads of any size; a
reader takes at most one frame out of it per read, with a three-byte header in AUTH mode and
a four-byte header in WORK mode, and the mode changes in mid-stream when a proof frame is
handled; replies leave through a queue with one write in flight. Each completion handler and
each posted task is one atomic step, which is what `README.md:38` and `README.md:57` of the
repository intend. Around it stand the client, which parses the same stream with exact reads,
the SRP numbers, the account cache, and the vendored logging path.

## Files

| file | what it holds |
|---|---|
| Arithmetic, Bytes, BigEndian | division with remainder, byte strings, base-256 notation, left padding |
| ByteBuffer, Packets, Framing | the field codec, the two packet formats, the reference parse of a stream |
| MessageBuffer | the read buffer of a session |
| Sessions, ClientSession | the session as a state machine, and the object proved to take its steps |
| Replies, ClientReplies | what each side owes and answers, frame by frame in raw bytes, over all runs |
| Clients, ClientConnection | the client as a state machine, and the object proved to take its steps |
| Srp6, Handlers, AccountCache, Utf8 | SRP state, the logon challenge, the cache in front of the database, names |
| Handshake | both peers and the two channels between them: all runs of an honest logon |
| CircularQueue, BlockingQueue, ThreadPool, RotatingSink | spdlog's asynchronous path from a posted message to the files |
| LogFormat, TrailingZeros | the text of a log line; one arithmetic kernel of fmt |

Main results, hardest first:

- `Handshake.HonestLogonCompletes` and `Handshake.HandshakeSafe`: whatever the schedule, the
  pieces in which bytes arrive, the random numbers, the cache traffic of other sessions and the
  hash, an honest logon never fails on either side, is never stuck, and following the schedule
  ends with both peers in WORK over the same transcript. A schedule may pick cache traffic at
  any time, as long as it does not pick it for ever. `Handshake.LogonIff` is the exact condition
  on the name, including names whose length wraps in the 16-bit field.
- `Sessions.EveryRun` and `Sessions.NoBacklogIff`: for every stream, every chunking and every
  interleaving, no byte is lost, the frames dispatched are a prefix of the reference parse, and
  packets leave in order with one write in flight. Because a read dispatches at most one frame,
  the server can fall behind; `NoBacklogIff` says exactly when it has not.
- `Replies.EveryReplyAccounted` and `ClientReplies.EveryStreamHeard`: over every run, every frame
  is answered exactly once and with exactly these bytes, and a client facing any server enters
  WORK only on the M2 of its own state.
- `ThreadPool.ShutdownCompletes`, `ThreadPool.ShutdownDrains`: with condition variables, wake-ups
  and notifications modelled one by one, no wake-up is lost, a shutdown always ends, and when it
  does every message the application asked for has been processed. `ThreadPool.JoinIffRoom` says when a
  pool can be shut down at all.
- `RotatingSink.DirectoryIsSuffix` with `RotatingSink.GreedyUnique`: the directory is determined
  by the log alone.
- `Utf8.AcceptsExactlyEncodings`, `Utf8.AcceptsVersusRfc`, `AccountCaches.HitCriterion`,
  `ByteBuffers.RoundTrip`, `TrailingZeros.RemoveTrailingZeros64`: exact conditions, both ways.

Where the code and its documentation or comments disagree, the model follows the code:

- the validator says it rejects code points above 10FFFF, but accepts F4 90 to F4 BF, so its
  language reaches 13FFFF (`src/common/utils/utf8utils/UTF8Utils.cpp:38`);
- `verify_client_proof` accepts every proof (`src/common/srp6/SRP6.cpp:214`), so nothing here
  says that a wrong password is refused;
- the challenge handler catches a throw of `read_string_nt_le`
  (`src/server/SessionMode/authstage/handlers/HandlersAuth.cpp:57-65`), which never throws;
- a frame over 2048 bytes is refused by the server only when all of it has arrived, because the
  completeness test comes first (`src/server/SessionMode/authstage/reader/ReaderAuthSession.cpp:23-31`).

## Model

| member | source | states |
|---|---|---|
| `MessageBuffers.MessageBuffer.constructor` | src/common/packet/MessageBuffer.hpp:12-13 | an empty buffer, all of it free |
| `MessageBuffers.MessageBuffer.Clear` | src/common/packet/MessageBuffer.hpp:15-23 | no active bytes and no storage |
| `MessageBuffers.MessageBuffer.WriteCompleted` | src/common/packet/MessageBuffer.hpp:29-33 | exactly the stored bytes become active, or an overflow is refused and nothing moves |
| `MessageBuffers.MessageBuffer.ReadCompleted` | src/common/packet/MessageBuffer.hpp:35-39 | exactly the first n active bytes leave, or an overflow is refused and nothing moves |
| `MessageBuffers.MessageBuffer.Normalize` | src/common/packet/MessageBuffer.hpp:44-51 | the active bytes are the same, now at the front of storage of the same size |
| `MessageBuffers.MessageBuffer.EnsureFreeSpace` | src/common/packet/MessageBuffer.hpp:53-60 | the active bytes are kept, the requested room is there, storage grows only when it must, and it stays within max(4096, peak active size + 2*512 - 1) |
| `Framing.ParseUnique` | src/server/SessionMode/authstage/reader/ReaderAuthSession.cpp:12-37 | the reference parse is the only cutting into frames of the current width that leaves no admissible frame in front |
| `Framing.ParseGrows` | src/server/SessionMode/workstage/reader/ReaderWorkSession.cpp:12-37 | bytes that arrive later never change the frames already parsed |
| `Framing.ParseFramed` | src/server/SessionMode/authstage/reader/ReaderAuthSession.cpp:12-43 | parsing goes on after a run of frames in the mode those frames lead to |
| `Sessions.ReadStep` | src/server/ClientSession/ClientSession.cpp:77-97 | one read consumes exactly the head frame when a whole one of at most 2048 payload bytes is there, otherwise none, and moves the mode by the proof rule |
| `Sessions.ReadClosesIff` | src/server/SessionMode/authstage/reader/ReaderAuthSession.cpp:22-54 | a read closes the session if and only if it completes an oversize frame or a ping with fewer than four bytes |
| `Sessions.FrameParses` | src/server/SessionMode/authstage/reader/ReaderAuthSession.cpp:33-43 | what the reader cuts out always deserializes, so that branch never closes |
| `Sessions.ReadKeepsReceiving` | src/server/ClientSession/ClientSession.cpp:56-83 | dispatched frames followed by the active bytes are all bytes received, framed in the modes the frames themselves ask for |
| `Sessions.DispatchedIsPrefix` | src/server/ClientSession/ClientSession.cpp:85-97 | the dispatched frames head the reference parse, and a ready frame is left exactly when some frame is still missing |
| `Sessions.SendStep` | src/server/ClientSession/ClientSession.cpp:119-126 | handing over a packet keeps one write in flight and all packets in order |
| `Sessions.WriteStep` | src/server/ClientSession/ClientSession.cpp:128-154 | a completed write keeps the same, and starts the next one if there is one |
| `Sessions.StepInv` | src/server/ClientSession/ClientSession.cpp:56-155 | every step of an open session keeps conservation of bytes and packets, framing, mode and the number of frames dispatched |
| `Sessions.EveryRun` | src/server/ClientSession/ClientSession.cpp:56-155 | for every stream, chunking and interleaving: bytes conserved, frames a prefix of the reference parse, writing_ iff the queue is not empty iff exactly its front is in flight, packets in order, cache in agreement |
| `Sessions.EverySplitIsARun` | src/server/ClientSession/ClientSession.cpp:56-83 | every way to split a stream is a run, and all of it is received unless the session closes |
| `Sessions.NoBacklogIff` | src/server/SessionMode/authstage/reader/ReaderAuthSession.cpp:49-56 | with one frame per read, all whole frames are dispatched if and only if, over any number of last reads, no more frames were completed than reads were made |
| `Sessions.CatchUp` | src/server/SessionMode/authstage/reader/ReaderAuthSession.cpp:56 | as many further reads as there are frames in arrears deal with all frames complete now, whatever those reads bring |
| `Sessions.CaughtUp` | src/server/SessionMode/authstage/reader/ReaderAuthSession.cpp:56 | and if they complete no further frame the backlog is gone |
| `Sessions.TwoFramesOneRead` | src/server/SessionMode/workstage/reader/ReaderWorkSession.cpp:56 | two pings in one read: one is left undispatched |
| `Replies.EveryReplyAccounted` | src/server/SessionMode/authstage/handlers/HandlersAuth.cpp:8-201 | in every run of an open session, as a multiset and byte for byte, the packets handed to the writer and those still posted are one pong for each whole ping in the framing of its mode, one M2 or refusal for each proof, and one answer for each challenge run; the challenges run or still posted are those the frames asked for; the mode and the authenticated flag follow the frames |
| `Replies.AuthPosts` | src/server/SessionMode/authstage/handlers/HandlersAuth.cpp:8-47 | what one AUTH frame posts, read off its raw bytes |
| `Replies.WorkPosts` | src/server/SessionMode/workstage/handlers/HandlersWork.cpp:9-36 | what one WORK frame posts, read off its raw bytes |
| `Replies.ClosesIff` | src/server/ClientSession/ClientSession.cpp:63-97 | an open session is closed by a failed read or write, a whole frame over 2048 bytes or a ping of fewer than four, and by nothing else, with buffer and queue emptied |
| `Replies.ClosedForGood` | src/server/ClientSession/ClientSession.cpp:21-54 | after that no run receives, dispatches or posts anything more |
| `ClientSessions.ClientSession.constructor` | src/server/ClientSession/ClientSession.cpp:9-19 | a new session is the start state, in AUTH, with room to read |
| `ClientSessions.ClientSession.Close` | src/server/ClientSession/ClientSession.cpp:21-54 | closing twice changes nothing; closing once empties buffer and queue |
| `ClientSessions.ClientSession.OnRead` | src/server/ClientSession/ClientSession.cpp:56-83 | the read handler performs the state machine's read step, and leaves an open session with 512 free bytes and bounded storage |
| `ClientSessions.ClientSession.ProcessReadBuffer` | src/server/SessionMode/authstage/reader/ReaderAuthSession.cpp:7-57 | the reader over the real buffer performs the step of the state machine, in both modes |
| `ClientSessions.ClientSession.DispatchAuth` | src/server/SessionMode/authstage/handlers/HandlersAuth.cpp:11-34 | the AUTH dispatch performs the step of the state machine |
| `ClientSessions.ClientSession.DispatchWork` | src/server/SessionMode/workstage/handlers/HandlersWork.cpp:9-24 | the WORK dispatch performs the step of the state machine |
| `ClientSessions.EchoPing` | src/server/SessionMode/authstage/handlers/HandlersAuth.cpp:36-42 | reading and writing the ping number gives its four bytes back, or fails on a shorter payload |
| `ClientSessions.ClientSession.HandlePing` | src/server/SessionMode/workstage/handlers/HandlersWork.cpp:26-37 | the ping handler of either mode performs the modelled step: a pong in the session's own framing, or close |
| `ClientSessions.ReadProof` | src/server/SessionMode/authstage/handlers/HandlersAuth.cpp:171-173 | A is the first 32 bytes and M1 the next 20, or the read fails |
| `ClientSessions.ReadUsername` | src/server/SessionMode/authstage/handlers/HandlersAuth.cpp:53-55 | the name up to its NUL or the end, in wire order reversed; the read never fails |
| `ClientSessions.ClientSession.HandleLogonProof` | src/server/SessionMode/authstage/handlers/HandlersAuth.cpp:169-202 | a proof of 52 bytes or more switches to WORK and answers H(A, M1); a shorter one is refused and the mode stays |
| `ClientSessions.ClientSession.HandleLogonChallenge` | src/server/SessionMode/authstage/handlers/HandlersAuth.cpp:49-167 | the handler over real cache and SRP objects performs the modelled challenge, in all its outcomes |
| `ClientSessions.ClientSession.BuildChallenge` | src/server/SessionMode/authstage/handlers/HandlersAuth.cpp:145-155 | loads the verifier, draws B, and yields B, g, N and salt |
| `ClientSessions.ClientSession.SendPacket` | src/server/ClientSession/ClientSession.cpp:102-114 | dropped when closed, otherwise posted |
| `ClientSessions.ClientSession.DoSendPacket` | src/server/ClientSession/ClientSession.cpp:119-126 | queues the built packet and starts a write only when none is running |
| `ClientSessions.ClientSession.DoWrite` | src/server/ClientSession/ClientSession.cpp:128-139 | starts the write of the front packet, or stops writing |
| `ClientSessions.ClientSession.OnWritten` | src/server/ClientSession/ClientSession.cpp:140-153 | the completed packet leaves the queue and the next write starts |
| `Handlers.ChallengeKeepsAgreement` | src/server/SessionMode/authstage/handlers/HandlersAuth.cpp:79-157 | whatever the packet, time, random number or database failure, every cached entry still equals the valid database row of its upper-cased key |
| `Handlers.CacheUpkeepKeepsAgreement` | src/server/AccountCache/AccountCache.hpp:37-89 | hits, cleanups and invalidations keep that agreement |
| `Handlers.ChallengeReplyFits` | src/server/SessionMode/authstage/handlers/HandlersAuth.cpp:146-155 | no padding fails and the reply payload is 97 bytes: B, g, N, salt |
| `Handlers.HitEqualsMiss` | src/server/SessionMode/authstage/handlers/HandlersAuth.cpp:79-157 | for an account with a valid row the SRP state and the reply do not depend on the cache, only on b |
| `Handlers.EveryChallengeAnswered` | src/server/SessionMode/authstage/handlers/HandlersAuth.cpp:49-167 | every challenge is answered, and its bytes are determined: the 97-byte challenge when the name is valid and the account cached or its row proper, otherwise 1,1 for an invalid or unknown name, 1,2 for a bad row and 1,3 for a database that fails on a miss |
| `Handlers.ChallengeEffect` | src/server/SessionMode/authstage/handlers/HandlersAuth.cpp:79-157 | the SRP state and the cache afterwards: the account's numbers and its row accessed now when a challenge was sent, at most the name otherwise |
| `Handlers.AnsweredFromCache` | src/server/SessionMode/authstage/handlers/HandlersAuth.cpp:90-107 | an account once answered is answered again within ttl whether or not the database is up, under every spelling of its name |
| `AccountCaches.AccountCache.Get` | src/server/AccountCache/AccountCache.hpp:37-51 | an unexpired entry is returned and slides; an expired or missing one is not returned and nothing changes |
| `AccountCaches.AccountCache.CleanupExpiredEntries` | src/server/AccountCache/AccountCache.hpp:78-89 | exactly the expired entries disappear, in whatever order they are visited |
| `AccountCaches.AfterMatches` | src/server/AccountCache/AccountCache.hpp:37-89 | after every history the table says of a user what the user's own accesses say |
| `AccountCaches.HitCriterion` | src/server/AccountCache/AccountCache.hpp:37-51 | a get hits if and only if the latest put was not invalidated and all accesses since are at most ttl apart, and returns that put's data |
| `AccountCaches.CleanupInvisible` | src/server/AccountCache/AccountCache.hpp:78-89 | histories that differ only in cleanups give the same get results |
| `AccountCaches.CleanupReclaims` | src/server/AccountCache/AccountCache.hpp:78-89 | a cleanup keeps exactly the entries that a get at that moment would hit |
| `Utf8.IsValidUtf8` | src/common/utils/utf8utils/UTF8Utils.cpp:6-45 | accepts exactly the concatenations of shortest-form encodings of non-surrogate code points below 140000 |
| `Utf8.AcceptsExactlyEncodings` | src/common/utils/utf8utils/UTF8Utils.cpp:11-44 | the same, for the language of the branches |
| `Utf8.EncodeInjective` | src/common/utils/utf8utils/UTF8Utils.cpp:11-44 | the decomposition of an accepted string is unique |
| `Utf8.DecodeEncode` | src/common/utils/utf8utils/UTF8Utils.cpp:11-44 | every encoding is accepted and decodes to the code points it came from |
| `Utf8.AcceptsVersusRfc` | src/common/utils/utf8utils/UTF8Utils.cpp:31-39 | all strings of section 4 of RFC 3629 are accepted, and an accepted string is outside it exactly when some character is F4 followed by 90..BF |
| `Utf8.BeyondRfcIsAccepted` | src/common/utils/utf8utils/UTF8Utils.cpp:31-39 | every F4 followed by 90..BF and two continuation bytes is accepted and is no string of that grammar |
| `Utf8.MasksAreDivisions` | src/common/utils/utf8utils/UTF8Utils.cpp:17-31 | the mask tests of the source are the range tests of the model |
| `Utf8.ToCase` | src/common/utils/utf8utils/UTF8Utils.cpp:48-95 | both mapping loops compute the segment-wise map |
| `Utf8.CaseOfAccepted` | src/common/utils/utf8utils/UTF8Utils.cpp:48-95 | on accepted strings the loop is a byte-wise map and the result is accepted |
| `Utf8.CaseOfBytes` | src/common/utils/utf8utils/UTF8Utils.cpp:48-95 | on accepted strings exactly 61..7A become 41..5A in upper case, and the reverse in lower case |
| `Utf8.MapCaseHead` | src/common/utils/utf8utils/UTF8Utils.cpp:48-95 | on every byte string: a byte below 80 is mapped alone, and a lead byte is copied with the bytes it announces |
| `Utf8.NoLettersOfOtherCase` | src/common/utils/utf8utils/UTF8Utils.cpp:73-95 | an upper-cased name has no small ASCII letter, a lower-cased one no capital |
| `Utf8.SameAccountIff` | src/common/utils/utf8utils/UTF8Utils.cpp:73-95 | two valid names are one account if and only if they differ in ASCII case only |
| `Utf8.LaterCaseWins` | src/common/utils/utf8utils/UTF8Utils.cpp:48-95 | on every string the last mapping decides: idempotence, and upper(lower(s)) == upper(s) |
| `ByteBuffers.RoundTrip` | src/common/packet/ByteBuffer.hpp:21-267 | a field list reads back with the same values and exactly the bytes written if and only if no null-terminated string contains a NUL |
| `ByteBuffers.FieldRoundTrip` | src/common/packet/ByteBuffer.hpp:21-267 | the same for one field of each kind, whatever follows it |
| `ByteBuffers.StringNtRoundTrip` | src/common/packet/ByteBuffer.hpp:123-154 | a null-terminated string of either order comes back exactly when it is NUL-free, otherwise as another string |
| `ByteBuffers.WrittenBack` | src/common/packet/ByteBuffer.hpp:169-274 | a read fails exactly for want of bytes, and its value written again is the bytes taken if and only if a writer could have written them |
| `ByteBuffers.TerminatedRead` | src/common/packet/ByteBuffer.hpp:129-155 | a terminated string ends before its first NUL, which is taken too, or at the end of the data |
| `ByteBuffers.NumberOnWire` | src/common/packet/ByteBuffer.hpp:21-76 | byte i of every fixed-width number, signed or not, in both orders |
| `ByteBuffers.TextOnWire` | src/common/packet/ByteBuffer.hpp:93-165 | the bytes of both string forms in both orders, of blocks and of flags |
| `ByteBuffers.FlagsRead` | src/common/packet/ByteBuffer.hpp:169-274 | any byte but 0 reads as true |
| `ByteBuffers.ByteBuffer.WriteUint` | src/common/packet/ByteBuffer.hpp:21-76 | appends the bytes of the number in its width and order |
| `ByteBuffers.ByteBuffer.WriteInt` | src/common/packet/ByteBuffer.hpp:22-76 | appends the two's complement of the number |
| `ByteBuffers.ByteBuffer.WriteBool` | src/common/packet/ByteBuffer.hpp:93 | appends one byte |
| `ByteBuffers.ByteBuffer.WriteStringRaw` | src/common/packet/ByteBuffer.hpp:98-113 | appends the string, reversed in little-endian form |
| `ByteBuffers.ByteBuffer.WriteStringNt` | src/common/packet/ByteBuffer.hpp:124-143 | appends the string and a NUL |
| `ByteBuffers.ByteBuffer.ReadUint` | src/common/packet/ByteBuffer.hpp:169-241 | decodes the head field, or fails and leaves the reader where it was |
| `ByteBuffers.ByteBuffer.ReadInt` | src/common/packet/ByteBuffer.hpp:173-241 | the same for signed numbers |
| `ByteBuffers.ByteBuffer.ReadBool` | src/common/packet/ByteBuffer.hpp:257-260 | the same for a flag |
| `ByteBuffers.ByteBuffer.ReadBytes` | src/common/packet/ByteBuffer.hpp:262-267 | the same for a block |
| `ByteBuffers.ByteBuffer.ReadStringRaw` | src/common/packet/ByteBuffer.hpp:102-121 | the same for a sized string |
| `ByteBuffers.ByteBuffer.ReadStringNt` | src/common/packet/ByteBuffer.hpp:129-154 | reads up to a NUL or to the end, and never fails |
| `ByteBuffers.ByteBuffer.Skip` | src/common/packet/ByteBuffer.hpp:271-274 | moves on, or fails and stays |
| `Packets.BuildThenDeserialize` | src/server/SessionMode/authstage/opcodes/AuthPacket.hpp:20-44 | a built packet parses back if and only if its payload is shorter than 65536, otherwise parsing fails |
| `Packets.DeserializeThenBuild` | src/server/SessionMode/workstage/opcodes/WorkPacket.hpp:20-44 | whatever parses is exactly what building gives back |
| `Packets.BuildPacket` | src/server/SessionMode/workstage/opcodes/WorkPacket.hpp:20-28 | opcode, 16-bit length and payload through the codec |
| `Packets.ParsePacket` | src/server/SessionMode/authstage/opcodes/AuthPacket.hpp:31-44 | the parse through the codec, with its three ways to fail |
| `Clients.AbsorbSound` | src/Client/Client.cpp:144-257 | an exact read either waits with no whole frame pending, completes exactly one frame, or stops at an oversize header |
| `Clients.ClientParsesAll` | src/Client/Client.cpp:144-257 | the parser alone: for every cutting of the stream and every rule that moves the mode, all frames of the reference parse are extracted |
| `Clients.ClientHearsStream` | src/Client/Client.cpp:144-332 | the client itself, whose mode follows its own SRP state: for every cutting it extracts exactly the frames that head the stream, each cut in the mode the earlier ones led to, and its state is the one that handling them one by one gives |
| `ClientReplies.EveryStreamHeard` | src/Client/Client.cpp:144-332 | whatever an AUTH client hears, from any server and however cut: it is in WORK if and only if some frame carried H(A, M1) of its own state at that moment, and it has sent exactly one proof for each whole challenge met in AUTH |
| `ClientReplies.AuthFrameHandled` | src/Client/Client.cpp:259-332 | every AUTH frame by its bytes: a whole challenge is answered, the expected M2 leads to WORK, a short challenge, a different M2 or a refusal to disconnect, and nothing else changes anything |
| `ClientReplies.WorkFrameHandled` | src/Client/Client.cpp:334-350 | a WORK client only logs |
| `ClientReplies.DisconnectsIff` | src/Client/Client.cpp:144-208 | a read ends the connection if and only if it completes a header that announces more than 2048 bytes |
| `ClientReplies.LogonBytes` | src/Client/Client.cpp:95-102 | the bytes of the first packet, and the name remembered |
| `ClientReplies.SendKeepsOrder` | src/Client/Client.cpp:112-124 | packets leave in the order given, connected or not |
| `ClientReplies.WriteKeepsOrder` | src/Client/Client.cpp:126-141 | a completed write loses no packet |
| `Handshake.ServerFollowsClient` | src/Client/Client.cpp:144-257 | on the same stream the server's frames are a prefix of the client's, equal exactly when the server has no backlog |
| `ClientConnections.ClientConnection.OnBytes` | src/Client/Client.cpp:144-208 | the receive loop performs the client's step |
| `ClientConnections.ClientConnection.ProcessFrame` | src/Client/Client.cpp:210-257 | a completed frame is parsed and handled, and the next header read starts |
| `ClientConnections.ClientConnection.HandlePacket` | src/Client/Client.cpp:259-332 | the packet handler performs the client's step |
| `ClientConnections.ReadChallenge` | src/Client/Client.cpp:269-276 | B, g, N and salt are cut at 32, 33, 65 and 97 bytes, or the read fails |
| `ClientConnections.ClientConnection.HandleChallenge` | src/Client/Client.cpp:267-304 | the challenge handler performs the client's step, with disconnect on every exception |
| `ClientConnections.ClientConnection.HandleProof` | src/Client/Client.cpp:306-318 | the proof handler performs the client's step, of which `ClientReplies.AuthFrameHandled` says when it leads to WORK |
| `ClientConnections.ClientConnection.SendPacketImpl` | src/Client/Client.cpp:112-124 | queues, and starts a write only for a packet alone in the queue |
| `ClientConnections.ClientConnection.FlushQueue` | src/Client/Client.cpp:126-131 | starts the write of the front packet of a connected client |
| `ClientConnections.ClientConnection.OnWritten` | src/Client/Client.cpp:132-141 | the written packet leaves and the next write starts |
| `ClientConnections.ClientConnection.Logon` | src/Client/Client.cpp:95-102 | sends the reversed, terminated name |
| `Srp6s.NumberBytesRoundTrip` | src/common/srp6/SRP6.cpp:129-182 | a number pads to 32 bytes exactly when it is below 2^256, and is read back from them |
| `Srp6s.EphemeralsFit` | src/common/srp6/SRP6.cpp:112-182 | for every random number the public values pad without failure |
| `Srp6s.ServerEphemeralIsRfc5054` | src/common/srp6/SRP6.cpp:112-127 | B is k*v + g^b mod N as in section 2.5.3 of RFC 5054 |
| `Srp6s.ClientEphemeralIsRfc5054` | src/common/srp6/SRP6.cpp:166-172 | A is g^a mod N as in section 2.5.4 of RFC 5054 |
| `Srp6s.PowLaws` | src/common/srp6/SRP6.cpp:112-127 | the powers of the formulas are powers: base^1 is base and exponents add |
| `Srp6s.KHashesUnpaddedG` | src/common/srp6/SRP6.cpp:33-57 | k is the digest of the 32 bytes of N followed by the single byte 7 |
| `Srp6s.ProofAccepted` | src/common/srp6/SRP6.cpp:184-227 | the client accepts a 20-byte M2 if and only if it is what the server derives from the client's A and M1 |
| `Srp6s.Srp6.MakeServerEphemeral` | src/common/srp6/SRP6.cpp:112-127 | the step-wise reduction yields that B |
| `Srp6s.Srp6.PublicB` | src/common/srp6/SRP6.cpp:129-133 | 32 bytes that decode to B, or failure exactly for a B too big |
| `BigEndian.PadBytesLeft` | src/common/utils/HexUtils.hpp:55-66 | zeros on the left up to the size, or failure for longer input |
| `BigEndian.PadIsFixedWidth` | src/common/utils/HexUtils.hpp:55-66 | padding a number's minimal bytes is its fixed-width encoding, and fails exactly for numbers too big |
| `Handshake.BeginAt` | src/Client/Client.cpp:95-102 | the logon starts with the whole hello packet under way |
| `Handshake.StepAt` | src/server/SessionMode/authstage/handlers/HandlersAuth.cpp:49-194 | every step of the two peers keeps the handshake in a known phase, and all but cache traffic bring it closer to its end |
| `Handshake.NeverStuck` | src/server/ClientSession/ClientSession.cpp:56-155 | before both peers are in WORK some step is always possible |
| `Handshake.HandshakeSafe` | src/Client/Client.cpp:267-318 | in every run of an honest logon nothing fails or disconnects, and where no step is left both peers are in WORK with the same transcript |
| `Handshake.EveryScheduleFinishes` | src/server/SessionMode/authstage/handlers/HandlersAuth.cpp:169-194 | from any phase, following any schedule reaches a logged-on state: both peers in WORK, same transcript, the named account |
| `Handshake.HonestLogonCompletes` | src/Client/Client.cpp:95-102 | after any beginning of an honest logon, following any schedule of steps, cache traffic of other sessions included, logs the named account on, for every chunking, random numbers and hash |
| `Handshake.SomeSchedule` | src/server/ClientSession/ClientSession.cpp:56-155 | schedules exist, so the results about all of them are not empty |
| `Handshake.LongNameNeverAdmitted` | src/server/SessionMode/authstage/reader/ReaderAuthSession.cpp:26-31 | for a name of 2048 bytes or more, lengths that wrap included, no run ends with the server in WORK for that account |
| `Handshake.LogonIff` | src/server/SessionMode/authstage/reader/ReaderAuthSession.cpp:26-31 | a registered name can be logged on if and only if it is shorter than 2048 bytes |
| `Handshake.ClientAnswers` | src/Client/Client.cpp:267-304 | the client's proof to an honest challenge is over both public values and the salt, and no exception occurs |
| `Handshake.OversizeNameNeverLogsOn` | src/server/SessionMode/authstage/reader/ReaderAuthSession.cpp:26-31 | a name announced with more than 2048 bytes never leaves AUTH on either side, and the server has closed once it has all that was sent |
| `CircularQueue.CircularQ.constructor` | deps/spdlog-1.15.3/include/spdlog/details/circular_q.h:28-31 | empty, with the given capacity |
| `CircularQueue.CircularQ.PushBack` | deps/spdlog-1.15.3/include/spdlog/details/circular_q.h:46-57 | appends, and drops and counts the oldest item when full; a disabled queue ignores the item |
| `CircularQueue.NewestKept` | deps/spdlog-1.15.3/include/spdlog/details/circular_q.h:46-57 | however many items are pushed, the newest are kept in order, as many as there is room for |
| `CircularQueue.CircularQ.PopFront` | deps/spdlog-1.15.3/include/spdlog/details/circular_q.h:83 | the oldest item leaves |
| `CircularQueue.CircularQ.Front` | deps/spdlog-1.15.3/include/spdlog/details/circular_q.h:61-63 | the oldest item |
| `CircularQueue.CircularQ.At` | deps/spdlog-1.15.3/include/spdlog/details/circular_q.h:76-79 | the i-th item despite wrap-around |
| `CircularQueue.CircularQ.Size` | deps/spdlog-1.15.3/include/spdlog/details/circular_q.h:66-72 | the number of items despite wrap-around |
| `CircularQueue.CircularQ.Empty` | deps/spdlog-1.15.3/include/spdlog/details/circular_q.h:85 | no item is stored |
| `CircularQueue.CircularQ.Full` | deps/spdlog-1.15.3/include/spdlog/details/circular_q.h:87-93 | as many items as the capacity |
| `CircularQueue.CircularQ.MoveFrom` | deps/spdlog-1.15.3/include/spdlog/details/circular_q.h:101-112 | the value moves over and the source is left disabled and empty; a queue moved onto itself ends up disabled |
| `BlockingQueue.MpmcBlockingQueue.Enqueue` | deps/spdlog-1.15.3/include/spdlog/details/mpmc_blocking_q.h:31-38 | under the block policy nothing is ever overrun |
| `BlockingQueue.MpmcBlockingQueue.EnqueueNowait` | deps/spdlog-1.15.3/include/spdlog/details/mpmc_blocking_q.h:41-47 | the oldest item is overrun when full, and counted |
| `BlockingQueue.MpmcBlockingQueue.EnqueueIfHaveRoom` | deps/spdlog-1.15.3/include/spdlog/details/mpmc_blocking_q.h:49-64 | the new item is discarded when full, and counted |
| `BlockingQueue.MpmcBlockingQueue.Dequeue` | deps/spdlog-1.15.3/include/spdlog/details/mpmc_blocking_q.h:82-90 | the oldest item leaves |
| `BlockingQueue.MpmcBlockingQueue.Conservation` | deps/spdlog-1.15.3/include/spdlog/details/mpmc_blocking_q.h:31-90 | whatever the mix of policies, items offered are those dequeued, stored, overrun and discarded |
| `ThreadPool.StepItemsAttended` | deps/spdlog-1.15.3/include/spdlog/details/mpmc_blocking_q.h:31-90 | no lost wake-up of a worker: while one sleeps, every queued item has a thread on its way |
| `ThreadPool.StepRoomAttended` | deps/spdlog-1.15.3/include/spdlog/details/mpmc_blocking_q.h:31-90 | no lost wake-up of a poster: while one sleeps, every free place has a thread on its way |
| `ThreadPool.StepInv` | deps/spdlog-1.15.3/include/spdlog/details/thread_pool-inl.h:79-123 | every step of every thread keeps order, counts, phases and wake-ups |
| `ThreadPool.EveryRunIsFifo` | deps/spdlog-1.15.3/include/spdlog/details/thread_pool-inl.h:79-123 | in every run every message a thread was asked to post is stored or still carried by it, stored messages are dequeued in posting order with none lost, each is processed or still with its worker, and the live workers are the threads less the terminates dequeued |
| `ThreadPool.PosterOrderKept` | deps/spdlog-1.15.3/include/spdlog/details/thread_pool-inl.h:57-82 | the queue takes each thread's messages in the order in which that thread asked for them |
| `ThreadPool.ShutdownNeverStuck` | deps/spdlog-1.15.3/include/spdlog/details/thread_pool-inl.h:44-55 | with room for one item no reachable shutdown state is stuck before the join |
| `ThreadPool.ShutdownProgress` | deps/spdlog-1.15.3/include/spdlog/details/thread_pool-inl.h:44-123 | every step of a shutdown but a spurious wake-up brings it closer to the join |
| `ThreadPool.ShutdownCompletes` | deps/spdlog-1.15.3/include/spdlog/details/thread_pool-inl.h:44-123 | a shutdown run is bounded and can only end with all workers joined |
| `ThreadPool.JoinedMeansProcessed` | deps/spdlog-1.15.3/include/spdlog/details/thread_pool-inl.h:50-52 | when the last worker has exited the queue is empty and exactly the messages stored before the destructor have been processed |
| `ThreadPool.ShutdownDrains` | deps/spdlog-1.15.3/include/spdlog/details/thread_pool-inl.h:44-123 | for every run from the constructor on: when the join returns, the messages processed are exactly those of the run's post events |
| `ThreadPool.ZeroCapacityNeverJoins` | deps/spdlog-1.15.3/include/spdlog/details/circular_q.h:87-93 | with a queue of size 0 no run, for any number of threads and posters, dequeues anything or ends in a join |
| `ThreadPool.JoinIffRoom` | deps/spdlog-1.15.3/include/spdlog/details/thread_pool-inl.h:44-55 | a pool can be shut down at all if and only if its queue has room for one item |
| `ThreadPool.ZeroCapacityStuck` | deps/spdlog-1.15.3/include/spdlog/details/circular_q.h:87-93 | one such shutdown in which no thread can move any more |
| `RotatingSink.RotatingFileSink.constructor` | deps/spdlog-1.15.3/include/spdlog/sinks/rotating_file_sink-inl.h:26-49 | on an empty directory, one empty file |
| `RotatingSink.RotatingFileSink.Rotate` | deps/spdlog-1.15.3/include/spdlog/sinks/rotating_file_sink-inl.h:138-166 | every file moves one index up, the last is replaced, file 0 is empty, higher indices are not touched |
| `RotatingSink.RotatingFileSink.RenameFile` | deps/spdlog-1.15.3/include/spdlog/sinks/rotating_file_sink-inl.h:171-176 | only source and target change |
| `RotatingSink.RotatingFileSink.SinkIt` | deps/spdlog-1.15.3/include/spdlog/sinks/rotating_file_sink-inl.h:108-125 | the record is logged and the directory still holds the last greedy segments of the log |
| `RotatingSink.GreedyUnique` | deps/spdlog-1.15.3/include/spdlog/sinks/rotating_file_sink-inl.h:113-122 | the log alone determines where files are cut |
| `RotatingSink.DirectoryIsSuffix` | deps/spdlog-1.15.3/include/spdlog/sinks/rotating_file_sink-inl.h:132-166 | the files from the highest index down to 0 are a suffix of everything logged, cut between records, and whole segments only are missing |
| `RotatingSink.EveryFileFits` | deps/spdlog-1.15.3/include/spdlog/sinks/rotating_file_sink-inl.h:113-124 | every file holds at most max_size bytes or a single non-empty record |
| `TrailingZeros.RotationTest` | deps/spdlog-1.15.3/include/spdlog/fmt/bundled/format-inl.h:1153-1171 | the rotated modular-inverse test succeeds if and only if the divisor divides n, and then yields the quotient |
| `TrailingZeros.RotrPartsAreDisjoint` | deps/spdlog-1.15.3/include/spdlog/fmt/bundled/format-inl.h:177-184 | the two shifted parts of the rotation share no bit, so the or is a sum |
| `TrailingZeros.ShiftsAreDivisions` | deps/spdlog-1.15.3/include/spdlog/fmt/bundled/format-inl.h:177-184 | the shifts are the division and remainder of the model, and s |= 1 is its step on counts |
| `TrailingZeros.SetLowBitIsOr` | deps/spdlog-1.15.3/include/spdlog/fmt/bundled/format-inl.h:1165-1169 | the step on counts sets the low bit and no other |
| `TrailingZeros.Test100In32` | deps/spdlog-1.15.3/include/spdlog/fmt/bundled/format-inl.h:1160-1161 | the 32-bit test by 100 |
| `TrailingZeros.Test10In32` | deps/spdlog-1.15.3/include/spdlog/fmt/bundled/format-inl.h:1165-1166 | the 32-bit test by 10 |
| `TrailingZeros.Test100In64` | deps/spdlog-1.15.3/include/spdlog/fmt/bundled/format-inl.h:1197-1198 | the 64-bit test by 100 |
| `TrailingZeros.Test10In64` | deps/spdlog-1.15.3/include/spdlog/fmt/bundled/format-inl.h:1202-1203 | the 64-bit test by 10 |
| `TrailingZeros.RemoveTrailingZeros32` | deps/spdlog-1.15.3/include/spdlog/fmt/bundled/format-inl.h:1153-1171 | n is the result times a power of ten, the result ends in no zero, and the count is exact for an even start and rounded down for an odd one |
| `TrailingZeros.LoopEndsIff` | deps/spdlog-1.15.3/include/spdlog/fmt/bundled/format-inl.h:1159-1164 | the 32-bit loop is left after finitely many turns if and only if n is not zero |
| `TrailingZeros.MagicSplit` | deps/spdlog-1.15.3/include/spdlog/fmt/bundled/format-inl.h:1177-1184 | the 128-bit product tells divisibility by 10^8 and its quotient for every 64-bit n |
| `TrailingZeros.RemoveTrailingZeros64` | deps/spdlog-1.15.3/include/spdlog/fmt/bundled/format-inl.h:1174-1209 | for every nonzero n: ends unless n is a multiple of 2^32 * 10^8, and the result is right if and only if 10^8 does not divide n or n is below 2^32 * 10^8 |
| `TrailingZeros.StrippedUnique` | deps/spdlog-1.15.3/include/spdlog/fmt/bundled/format-inl.h:1153-1209 | there is only one right answer for every n |
| `LogFormat.EscapeText` | src/common/Logger.hpp:185-193 | quotes and backslashes are escaped, everything else is copied |
| `LogFormat.ContextJson` | src/common/Logger.hpp:172-183 | the items in the order walked, separated by commas |
| `LogFormat.FormatWithContext` | src/common/Logger.hpp:166-170 | the printed fragment |
| `LogFormat.MessageRoundTrip` | src/common/Logger.hpp:166-193 | a reader that undoes backslashes recovers the message and the items |
| `LogFormat.ContextRecovered` | src/common/Logger.hpp:172-183 | whatever the iteration order, exactly the map is recovered |
| `LogFormat.JsonIffNoControls` | src/common/Logger.hpp:185-193 | the escaped text is a string of section 7 of RFC 8259 if and only if the message has no control character |

## Left out

- Boost.Asio sockets, resolvers, signals, the accept loop and `Server::stop`: only their completions appear, as steps.
- A write that completes after `close()`: it pops the cleared queue (`src/server/ClientSession/ClientSession.cpp:151`) and is no event of the model. Run properties are stated for open sessions; `Replies.ClosedForGood` says what a closed one still does.
- Reconnect, `disconnect` once posted, and the client's heartbeat: one connection, and no ping inside the handshake.
- Data races between threads of one `io_context` and the lifetime of the packet that the coroutine refers to: handlers are serialized and packets are values.
- OpenSSL, SHA-1 and random numbers: parameters. No claim is made about secrecy or about refusing bad proofs.
- libpqxx and SQL: the database is a fixed map from user name to row that answers or fails.
- `Handshake.HonestLogonCompletes`: asks for a name shorter than 2048 bytes, which `Handshake.LogonIff` shows to be the exact condition.
- `Handshake.OversizeNameNeverLogsOn`: is about lengths announced as more than 2048. For a name whose length wraps to 2048 or less the server takes the rest of it for further frames and may leave AUTH; what then holds is `Handshake.LongNameNeverAdmitted`.
- `Clients.ClientParsesAll`: is about the parser under a rule on mode and frame, to compare it with the server's; the client's own rule depends on its SRP state and is in `Clients.ClientHearsStream`, over runs without write completions, which touch nothing that reading uses.
- `ThreadPool`: threads are a state machine over values, and its queue is the bounded sequence that class `BlockingQueue.MpmcBlockingQueue` implements; `dequeue_for` and the other two policies are not part of the pool's runs.
- Lengths are naturals: `size_t` arithmetic in `check_read` does not wrap in the model.
- Failing renames, `rotate_now` and changes of the limits of the rotating sink; the opening of a directory that already has files.
- `TrailingZeros.RemoveTrailingZeros64`: the product of `umul128` is taken to be exact; that the loop is never left on a multiple of 2^32 * 10^8 is reported by a flag, and the growth of its counter there is not modelled.
- Float and double fields: the same bytes as the integers after a bit cast.
- Hexadecimal text, time and network helpers, prepared statements, the remaining sinks and formatters: they would only add easy members.
