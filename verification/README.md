# Net-7 protocol and combat models

A Dafny 4.11 model of the stateful cores of the Net-7 emulator, with proofs of what each is for. Code that works by
changing things in place is modelled as classes and methods over fields, arrays and linked nodes; each method is proved
to reach the state a specification function names, and the laws are lemmas about those functions and about whole runs.

## What is modelled

- **The reliable packet sequence of the proxy** (`PacketWalk`, `Reassembler*`, `UdpClient`). A slot map under unsigned
  keys, a signed head, a give-up counter, a split accumulator, resend requests, a timer pump and pruning, driven by
  arrivals, ticks, resets and hand-offs. The client is an append-only log of forwarded frames. A datagram is stored
  before the range test; sequence 0 resets the map but not the split accumulator; the continuation flag belongs to the
  whole drain; the give-up of an arrival does not drain; a hand-off inside a walk empties the map and ends the epoch.
- **The enciphered client channel** (`Bytes`, `Rc4`, `NumberTheory`, `Rsa`, `KeyExchange`, `Framing`, `Channel`,
  `Producers`, `Session`). RSA key transport with its number theory from Euclid and the binomial theorem up, the RC4 keystream in
  its C++, C# and Python forms, the frame writer and both frame readers, and any number of threads interleaved inside
  `SendResponse`.
- **Buffs, expiry index and damage shields** (`Mob*`). One value-level step per operation, the cross-structure
  invariant, and an object whose shields are heap nodes and whose buffs and shields remove each other recursively. The
  zero records that the index operator of the map creates are kept.
- **The token-bucket limiter with eviction** (`RateLimiter`, `EvictionExact`), against a limiter that never forgets.
- **The outbox relay** (`Outbox`, `OutboxRuns`), with failures of reading, delivery and marking, restarts and sweeps.
- **The login token** (`AuthToken`), from minting through learning and wrapping to the check of the server.
- **Launcher ammunition** (`Launcher`).

Where the code and its comments disagree the model follows the code. `login-server/net7go/ticket.go` says the server
splits a ticket at the first dash; the proxy and the ticket check split at the last, and `AuthToken.SplitsAgree` says when
that matters.

Properties one might expect but that the code does not have are stated with their exact condition:
`ReassemblerContinuation.ContinuationLoses`, `ReassemblerStale.StaleSplit`, `ReassemblerSafety.PumpRequestExact`,
`ReassemblerQuiet.QuietNetworkSettles`, `MobExpiry.ExactlyDue`, `Framing.ReceiverWalks`, `MobLaws.PanelCollateral`, `MobLaws.TakesAnother`,
`EvictionExact.InvisibleExactly`, `Rsa.BlockRoundTrip`, `AuthToken.TicketLearnedExactly`, `AuthToken.SplitsAgree`,
`Launcher.TypeOfNext` and `Launcher.BeamDeals`.

`dafny verify dfyconfig.toml` checks the whole project.

## Model

| member | source | states |
|---|---|---|
| ReassemblerOrder.OrderInsensitive | proxy/UDPProxyToClient_linux.cpp:873-1106 | After any arrivals of non-zero 0x2016 sequences in any order with any duplicates, and any timer ticks, with no give-up: the head is the first sequence not yet arrived, and client log and commits are exactly those of the in-order walks of the packets below it, splits reassembled |
| ReassemblerOrder.SameArrivalsSameLog | proxy/UDPProxyToClient_linux.cpp:873-1106 | Two such runs with the same set of arrivals end with the same head, client log and commits |
| ReassemblerOrder.StepFollows | proxy/UDPProxyToClient_linux.cpp:798-1106 | One arrival or tick keeps the receiver equal to the ideal in-order receiver of the packets below its head |
| ReassemblerOrder.EpochOpens | proxy/UDPProxyToClient_linux.cpp:875-881 | Sequence 0, met with no split in flight, starts an epoch that follows the ideal receiver from scratch, whatever the old state held |
| ReassemblerWitness.OrderMattersBehindContinuation | proxy/UDPProxyToClient_linux.cpp:1013-1020 | With a 0x201A arrival among them, two orders of the same datagrams give different logs: an ordinary packet drained behind it is marked done and never forwarded |
| ReassemblerContinuation.ContinuationLoses | proxy/UDPProxyToClient_linux.cpp:1002-1020 | In every state, the continuation flag makes the client miss output of the head datagram if and only if no split is in flight or begun there and its walk has output |
| ReassemblerContinuation.HarmlessStep | proxy/UDPProxyToClient_linux.cpp:1013-1020 | From every state, a 0x201A arrival whose drain meets no ordinary packet has exactly the effect of the same data in a 0x2016 datagram |
| ReassemblerContinuation.HarmlessOrderInsensitive | proxy/UDPProxyToClient_linux.cpp:873-1106 | Order insensitivity with 0x201A datagrams among the arrivals, as long as their drains meet only split chunks and blank fill: head, client log and commits are those of the ideal in-order receiver |
| ReassemblerQuiet.PumpDescends | proxy/UDPProxyToClient_linux.cpp:798-862 | Every effective timer pump of an epoch decreases (held datagrams, newest minus head, retries left) lexicographically, failed splits that move the head back included, unless a walk ends the stream |
| ReassemblerQuiet.QuietNetworkSettles | proxy/UDPProxyToClient_linux.cpp:798-862 | With no more arrivals, pumps one resend interval apart come to an end, nothing newer than the head left or the stream ended by a walk, if and only if no negative sequence is stored or a walk ends the stream |
| ReassemblerQuiet.NeverRests | proxy/UDPProxyToClient_linux.cpp:817-824 | While a negative sequence is stored, whose key lies beyond every head, no number of pumps brings the stream to rest |
| Reassembler.ProcessReleases | proxy/UDPProxyToClient_linux.cpp:974-1090 | Every pass after which the drain loop goes on has released a held datagram, so the inner loop terminates |
| ReassemblerSafety.StepInv | proxy/UDPProxyToClient_linux.cpp:778-1106 | From every state of a clean epoch every event keeps: no slot at or above the head is done, a split in flight starts below the head, and committed sequences are strictly increasing across rollbacks |
| ReassemblerSafety.StepNacks | proxy/UDPProxyToClient_linux.cpp:778-787 | With sequences counted from 0, every step sends at most one resend request; in a clean epoch its 32-bit fields name the head the step ends with and a positive count that covers no sequence whose data is held |
| ReassemblerSafety.EveryRunSafe | proxy/UDPProxyToClient_linux.cpp:778-1106 | In every reachable state the epoch invariant holds; in every state reachable by sequences counted from 0 the next request is safe, whatever happens next |
| ReassemblerSafety.HoleEmpty | proxy/UDPProxyToClient_linux.cpp:853-856 | The signed hole size is positive if and only if the next stored key lies less than 2^63 above the head; then it is the distance to that key and nothing is stored in between |
| ReassemblerSafety.PumpRequestExact | proxy/UDPProxyToClient_linux.cpp:853-861 | From every state: the request the timer sends names the head and exactly the hole if and only if head and distance to the next stored key fit 32-bit fields; its long count is positive if and only if that key is below head + 2^63 |
| ReassemblerSafety.NegativeCount | proxy/UDPProxyToClient_linux.cpp:853-861 | Sequence -1 stored beyond head 0 makes the timer ask for minus one packet |
| ReassemblerSafety.StepInRange | proxy/UDPProxyToClient_linux.cpp:798-1106 | With sequences counted from 0, no stored key of a clean epoch leaves the range of a request, heads that give up included |
| ReassemblerRequests.EarlyAsks | proxy/UDPProxyToClient_linux.cpp:902-944 | From every active state, an arrival up to 30 ahead of a head not asked for yet, with fewer than ten waits, sends exactly one request, for that head alone, stamps the timer, marks the head and counts wait and loss |
| ReassemblerRequests.EarlySkips | proxy/UDPProxyToClient_linux.cpp:902-953 | With ten waits counted such an arrival skips the missing head instead: no request, no drain |
| ReassemblerRequests.EarlyWaits | proxy/UDPProxyToClient_linux.cpp:945-959 | Behind a head that has been asked for, an arrival only counts a wait until it is time to skip |
| ReassemblerRequests.FarAhead | proxy/UDPProxyToClient_linux.cpp:883-905 | More than 30 ahead a datagram is stored and nothing else happens; without a connection nothing is stored |
| ReassemblerRequests.StartsOver | proxy/UDPProxyToClient_linux.cpp:875-886 | Sequence 0 resets slots, head, losses and timer even without a connection, and leaves a split in flight |
| ReassemblerRequests.PumpIdle | proxy/UDPProxyToClient_linux.cpp:798-835 | The timer does nothing before login, without a connection or with nothing newer than the head, and asks at most every 300 ms |
| ReassemblerRequests.PumpAsks | proxy/UDPProxyToClient_linux.cpp:836-862 | When the timer asks it sends one request, stamps itself, marks the head and counts wait and loss; nothing else changes |
| ReassemblerRequests.PumpSkips | proxy/UDPProxyToClient_linux.cpp:836-850 | Ten retries later the timer skips the head and drains what follows |
| ReassemblerRequests.PrunedExact | proxy/UDPProxyToClient_linux.cpp:1091-1106 | Pruning keeps exactly the sequences at most 64 behind the head and all ahead of it |
| ReassemblerRequests.EveryMarkAsked | proxy/UDPProxyToClient_linux.cpp:778-1106 | In every state reachable by sequences counted from 0, every slot of a clean epoch marked as asked for is covered by a request that was sent |
| ReassemblerRequests.NarrowedExactly | proxy/UDPProxyToClient_linux.cpp:778-787 | Request fields and hole distance are the numbers modulo 2^32 and 2^64, read as signed |
| ReassemblerArrivals.GamePacketArrives | proxy/UDPProxyToClient_linux.cpp:970-1106 | A datagram of game frames at the head: exactly these frames go to the client, one commit, no request; start, log-off and hand-off change login, connection, loss counter, slots and head as named |
| ReassemblerSplit.SplitHandled | proxy/UDPProxyToClient_linux.cpp:1002-1078 | The drain from a state that holds the rest of a cut frame walks exactly its original bytes, once; if the walk passes the drain goes on behind the split, which a quiet walk commits; if it is refused the drain ends with exactly the sequences of the split re-requested, the head at its start and one request for exactly those |
| ReassemblerSplit.SplitArrives | proxy/UDPProxyToClient_linux.cpp:1034-1078 | The arrival of the chunk a split waits for, with the chunks behind it held, ends in the rollback on refusal and otherwise in the drain from behind the committed split |
| ReassemblerRecovery.SplitRecovers | proxy/UDPProxyToClient_linux.cpp:1058-1078 | After a refusal and a reconnection, datagrams in any order with duplicates and ticks, without give-up, that bring a cut frame to the sequences asked for, the same frame or another: it is sent whole right behind what the refused walk sent, its last sequence is the next commit, and the head is past it |
| ReassemblerRecovery.RecoveryExists | proxy/UDPProxyToClient_linux.cpp:1312-1313 | A receiver without a client connection refuses a two-chunk frame and, once connected, sends it when the chunks arrive again, the second first |
| ReassemblerSplit.SplitRoundTrip | proxy/UDPProxyToClient_linux.cpp:1002-1078 | Among other packets, a cut frame adds exactly the walk of the original bytes to the client log, once, at its last chunk |
| ReassemblerStale.RollbackRequest | proxy/UDPProxyToClient_linux.cpp:1058-1078 | From every state whose head and split start fit 32 bits: the request of a failed reassembly is well formed if and only if the split did not begin beyond the head |
| ReassemblerStale.StaleSplit | proxy/UDPProxyToClient_linux.cpp:875-1078 | From every state, an arrival that drains sends a request exactly if its last pass completes a split whose walk is refused; it is well formed if and only if that split did not begin beyond the head of that pass, and one that did was in flight before the arrival |
| ReassemblerStale.OnlyStale | proxy/UDPProxyToClient_linux.cpp:1002-1078 | A drain that ends by rolling a split forward instead of back does so with a split that was in flight before it, at the same start; one opened by the drain itself is always rolled back |
| ReassemblerStale.StaleRun | proxy/UDPProxyToClient_linux.cpp:875-881 | A run from the start that opens a split at sequence 2, starts over and completes it at sequence 1: the request starts at 2 and asks for no sequence |
| PacketWalkLaws.WalkDispatches | proxy/UDPProxyToClient_linux.cpp:1303-1379 | Walking a packet of whole frames dispatches each frame in order with exactly its payload, up to a refused opcode or a shut-down |
| PacketWalkLaws.PlainFramesForwarded | proxy/UDPProxyToClient_linux.cpp:1351-1366 | A packet of game frames reaches the client frame by frame, verbatim and in order |
| PacketWalkLaws.GameFramesWalked | proxy/UDPProxyToClient_linux.cpp:548-600 | Game frames of any opcode are forwarded verbatim; the packet hands off, disconnects or completes the login exactly if it holds 0x3A, 0x3A or 0xBA, or 0x05 |
| PacketWalkLaws.ControlFrameWalked | proxy/UDPProxyToClient_linux.cpp:1303-1379 | Every other frame by its opcode: vanishes, shuts down, goes to its handler, or is refused |
| PacketWalkLaws.ShortFrameWalked | proxy/UDPProxyToClient_linux.cpp:1303-1379 | A game frame whose length is below its header size forwards nothing; the walk goes on inside the header, and with length 0 it never ends |
| UdpClient.UDPClient.SendPacketSequence | proxy/UDPProxyToClient_linux.cpp:873-960 | Storing before the range test, reset, hole request, give-up and drain, in place, reach exactly the state of the arrival step |
| UdpClient.UDPClient.DrainReadyPackets | proxy/UDPProxyToClient_linux.cpp:970-1106 | The in-place drain loop and the pruning reach exactly the state of the drain step |
| UdpClient.UDPClient.CompleteSplit | proxy/UDPProxyToClient_linux.cpp:1034-1078 | The last chunk sets off the walk and, on refusal, the rollback of the whole split |
| UdpClient.UDPClient.RollBack | proxy/UDPProxyToClient_linux.cpp:1058-1078 | Marking, head and request of a failed reassembly; a hand-off inside it hangs the loop |
| UdpClient.UDPClient.MarkRange | proxy/UDPProxyToClient_linux.cpp:1059-1066 | The loop marks exactly the slots from the split start to the head |
| UdpClient.UDPClient.Prune | proxy/UDPProxyToClient_linux.cpp:1096-1103 | The loop erases exactly the front keys more than the kept window behind the head |
| UdpClient.UDPClient.PumpPacketResend | proxy/UDPProxyToClient_linux.cpp:798-862 | The timer pump, with its gates and early return, reaches exactly the state of the pump step |
| UdpClient.UDPClient.HandleEarly | proxy/UDPProxyToClient_linux.cpp:920-953 | An early arrival asks once for the head, skips it without draining, or drains |
| UdpClient.UDPClient.SendClientPacketSequence | proxy/UDPProxyToClient_linux.cpp:1303-1379 | The frame walk loop forwards, handles and ends exactly as the recursive walk says, side effects included |
| UdpClient.UDPClient.DispatchFrame | proxy/UDPProxyToClient_linux.cpp:1134-1372 | One inner frame: dropped, consumed, handled, forwarded or refused |
| UdpClient.UDPClient.IncommingOpcodePreProcessing | proxy/UDPProxyToClient_linux.cpp:552-603 | Log-off, hand-off and start change exactly the named connection fields, the loss counter that a completed login zeroes included |
| UdpClient.UDPClient.RequestResend | proxy/UDPProxyToClient_linux.cpp:778-787 | One request is sent, start and count narrowed to 32 bits, and the retry timer stamped |
| NumberTheory.Fermat | proxy/WestwoodCrypto/WestwoodRSA.cs:28-40 | Every natural number is congruent to its p-th power modulo a prime p |
| NumberTheory.RsaFixedPoint | proxy/WestwoodCrypto/WestwoodRSA.cs:20-42 | For distinct primes and exponents inverse modulo p-1 and q-1, every residue modulo p*q, coprime or not, returns to itself |
| Rsa.KeyCongruences | proxy/WestwoodCrypto/WestwoodRSA.cs:10-18 | The published constants satisfy P*Q = N, P differs from Q, and E*D is 1 modulo P-1 and modulo Q-1 |
| Rsa.ModulusWidth | proxy/WestwoodCrypto/WestwoodRSA.cs:8-14 | The modulus has exactly 64 bytes |
| Rsa.PaddedDigits | proxy/WestwoodCrypto/WestwoodRSA.cs:53-70 | Minimal digits with zeros before them are the fixed-width big-endian encoding |
| Rsa.BlockRoundTrip | proxy/WestwoodCrypto/WestwoodRSA.cs:20-42 | Decryption undoes encryption of a 64-byte block, padding included, if and only if its value is below the modulus |
| Rsa.FromBigEndian | proxy/WestwoodCrypto/WestwoodRSA.cs:44-51 | The reversed array with a zero byte behind it is the unsigned big-endian value |
| Rsa.ToBigEndian | proxy/WestwoodCrypto/WestwoodRSA.cs:53-70 | Writes exactly the left-padded encoding into the span, or refuses if and only if it does not fit |
| Rsa.EncryptBlock | proxy/WestwoodCrypto/WestwoodRSA.cs:20-30 | Accepts exactly 64 bytes in and at least 64 out, and leaves the encrypted block there, in place included |
| Rsa.DecryptBlock | proxy/WestwoodCrypto/WestwoodRSA.cs:32-42 | Accepts exactly 64 bytes in and at least 64 out, and leaves the decrypted block there |
| Rsa.DecryptBlocks | proxy/WestwoodRSA.cpp:96-138 | The C++ block loop writes exactly the decrypted blocks that the C# form would, for every length that is a multiple of 64 and no other |
| Rsa.BlockOf | proxy/WestwoodRSA.cpp:96-138 | Each 64 bytes of the output are the decryption of the same 64 bytes of the input |
| Rsa.WriteAndPad | proxy/WestwoodRSA.cpp:109-128 | Minimal digits written at the start and moved to the end give the left-padded encoding, for the value 0 too |
| KeyExchange.KeyTransport | proxy/Connection.cpp:889-948 | The server recovers exactly the 8-byte key the client packed, in the 64-byte and in the 65-byte form, whatever follows on the stream |
| KeyExchange.PublicClientUnderstood | proxy/WestwoodRSA.cpp:37-138 | A client that knows only the 74 bytes of the preamble, takes modulus and exponent from their places in it and raises the reversed key behind zeros to that exponent, establishes that key |
| KeyExchange.HandshakeExactly | proxy/Connection.cpp:899-925 | The outcome in terms of the bytes: established exactly by a big-endian length of 64 or 65 with that many bytes behind it, and each refusal exactly under its cause |
| KeyExchange.KeyBlockFits | proxy/WestwoodCrypto/RsaHandshake.cs:34-40 | Every key block is below the modulus, so it survives encryption |
| KeyExchange.ScriptAgrees | proxy/scripts/decrypt-client-leg.py:133-138 | Whenever the server establishes a session the script reads the same key from the same bytes |
| KeyExchange.BuildClientKeyPacketFromKey | proxy/WestwoodCrypto/RsaHandshake.cs:23-43 | Refuses every length but 8 and otherwise builds the length field and the encrypted, reversed key in place |
| KeyExchange.ExtractSessionKeyFromDecryptedBlock | proxy/WestwoodCrypto/RsaHandshake.cs:45-57 | Refuses every length but 64 and otherwise returns the reversed last eight bytes |
| KeyExchange.GetModulus | proxy/WestwoodRSA.cpp:37-48 | 69 bytes: the prefix and the modulus, whose minimal digits fill the 64 bytes advanced over |
| KeyExchange.GetPublicExponent | proxy/WestwoodRSA.cpp:50-62 | Five bytes: the length and the one digit of the exponent |
| Rc4.CryptSplits | proxy/WestwoodRC4.cpp:34-54 | Processing a + b equals processing a and then b, output and state |
| Rc4.CryptCancels | proxy/WestwoodRC4.cpp:34-54 | Two passes from equal states are the identity |
| Rc4.StaysPermutation | proxy/WestwoodRC4.cpp:12-54 | For every non-empty key and any number of bytes the table stays a permutation of 0 to 255 |
| Rc4.KeysPart | proxy/WestwoodRC4.cpp:26-31 | Two keys of one length of at most 256 that first differ at byte p part ways in round p of the schedule |
| Rc4.ScheduleOf | proxy/WestwoodRC4.cpp:12-32 | The prepared table is the last of 257, the first the identity, each round adding table entry and key byte to the index modulo 256 and exchanging two entries |
| Rc4.ScheduleUnique | proxy/WestwoodRC4.cpp:26-31 | Such a schedule is determined by its key bytes |
| Rc4.StreamStep | proxy/WestwoodRC4.cpp:44-51 | Each byte: first index plus one, second plus the entry found there, exchange, and xor with the entry at the sum of the two, modulo 256 |
| Rc4.NextIndex | proxy/scripts/decrypt-client-leg.py:145-146 | The running index of the C++ key schedule is the position modulo the key length that the script uses |
| Rc4.WestwoodRC4.PrepareKey | proxy/WestwoodRC4.cpp:12-32 | For every non-empty key the C++ schedule, with its wrapping byte index, gives the same table as the script |
| Rc4.WestwoodRC4.RC4 | proxy/WestwoodRC4.cpp:34-54 | The buffer is enciphered in place and the state advances by exactly as many bytes; nothing past the length changes |
| Rc4.ManagedRC4.PrepareKey | proxy/WestwoodCrypto/WestwoodRC4.cs:11-29 | The C# schedule refuses exactly the empty key, changing nothing, and otherwise gives the same table |
| Rc4.ManagedRC4.Transform | proxy/WestwoodCrypto/WestwoodRC4.cs:31-47 | The C# transform of a whole span gives the same output and state |
| Rc4.ScriptRC4.constructor | proxy/scripts/decrypt-client-leg.py:142-150 | The schedule of the script gives the same table |
| Rc4.ScriptRC4.Apply | proxy/scripts/decrypt-client-leg.py:152-161 | The script gives the same output and state |
| Framing.Walk | proxy/scripts/decrypt-client-leg.py:164-174 | The index loop returns exactly the frames of the recursive walk |
| Framing.WalkFrames | proxy/scripts/decrypt-client-leg.py:164-174 | Walking the concatenation of written frames gives back exactly the messages |
| Framing.FrameBytes | proxy/Connection.cpp:861-866 | A frame byte by byte: length and opcode with the low byte first, then the payload |
| Framing.ReceiverWalks | proxy/Connection.cpp:964-1000 | Deciphering header and payload in separate calls yields the walk of the deciphered stream if and only if that walk meets no oversized frame |
| Framing.SessionRoundTrip | proxy/Connection.cpp:848-884 | A session written with one cipher state is read back by the script and by the receiver as exactly its messages |
| Channel.Connection.SendResponse | proxy/Connection.cpp:848-884 | Framed and enciphered in the send buffer; the socket gets the whole frame or a prefix, and anything short ends the connection; an inactive connection or an oversized payload changes nothing |
| Channel.Connection.DoKeyExchange | proxy/Connection.cpp:889-948 | The wire gets the 74-byte preamble, or the part of it that the socket takes before it fails; the exchange succeeds if and only if it took the whole and the handshake of the bytes received is established, and both directions are keyed with its key |
| Channel.Connection.ReadKey | proxy/Connection.cpp:905-940 | Short, out-of-range and truncated key packets are refused; the leading zero of the 65-byte form is skipped |
| Channel.Connection.RunRecvThread | proxy/Connection.cpp:950-1040 | A preamble cut short or a handshake not established means that no frame is read; otherwise exactly the frames behind the key packet that the receiver function names, or as many of them as pass before the thread is stopped; the connection ends inactive |
| Producers.EveryInterleaving | proxy/Connection.cpp:848-884 | For any number of threads, any programs and every schedule, at every point: deciphering and walking the wire gives exactly the messages sent so far in lock order, by either reader, and the share of each thread is a prefix of its own accepted messages |
| Producers.AllSent | proxy/Connection.cpp:848-884 | Once a thread has run out, everything it offered that fits has been sent |
| Producers.ShareKept | proxy/Connection.cpp:850-877 | No step of any thread changes what a thread has sent, is about to send and has left |
| Session.WholeSession | proxy/Connection.cpp:889-1000 | For every key and schedule: server and script recover the key the client packed, and behind the 74-byte preamble the stream, deciphered with it, is walked by either reader to exactly the messages sent, in lock order, with those of each thread in their order |
| Session.Uninterrupted | proxy/Connection.cpp:848-884 | The steps of one thread without interruption have the effect of one successful call: frame on the wire, cipher advanced, lock free |
| RateLimiter.EvictionInvisible | login-server/net7go/ratelimit.go:75-109 | With burst >= 1 and rate * ttl >= burst, every answer over a monotone run is that of a limiter that never deletes a bucket |
| EvictionExact.InvisibleExactly | login-server/net7go/ratelimit.go:75-109 | Eviction is invisible on every run if and only if burst >= 1 and rate * ttl >= burst |
| RateLimiter.OwnIsLocal | login-server/net7go/ratelimit.go:92-108 | Deleting the requests of every other IP leaves an IP its answers |
| RateLimiter.AdmissionBound | login-server/net7go/ratelimit.go:75-109 | Over any interval of any run one IP is admitted at most burst + rate * T times |
| RateLimiter.SpacedNeverRefused | login-server/net7go/ratelimit.go:75-109 | With room for one token, an IP that leaves 1/rate between requests is never refused, whatever is evicted |
| RateLimiter.BurstAdmitted | login-server/net7go/ratelimit.go:75-109 | As many first requests of an IP as a burst holds are admitted, however close together and whatever is evicted; a rate of 0 admits every request |
| RateLimiter.ForgottenExactly | login-server/net7go/ratelimit.go:83-90 | A request forgets the bucket of another IP exactly if 300 seconds have passed since the last collection and it is untouched for more than 900 |
| RateLimiter.IpLimiter.Allow | login-server/net7go/ratelimit.go:75-109 | Answer and new map are those of the step; a non-positive rate always allows and changes nothing |
| RateLimiter.IpLimiter.Evict | login-server/net7go/ratelimit.go:83-90 | The loop deletes exactly the buckets untouched for longer than the limit |
| RateLimiter.IpLimiter.constructor | login-server/net7go/ratelimit.go:62-71 | A new limiter remembers nobody |
| MobLaws.UpdatedExact | server/src/CMobBuffs.cpp:321-409 | A removal that fires takes exactly the buff and the one its first shield names, exactly that shield and exactly their index entries, even when the shield has already removed the buff; one that does not fire changes nothing |
| MobLaws.ShieldRemovedExact | server/src/CMobClass.cpp:479-514 | Removing a shield id unlinks at most one node, the first with the id, and takes exactly the buff it names |
| MobLaws.EitherEnd | server/src/CMobBuffs.cpp:347-352 | Removing a pair that name each other from either end gives the same buffs, index and shields: both gone, one node unlinked, all else unchanged |
| MobLaws.HandlesReturnedTwice | server/src/CMobBuffs.cpp:331-376 | From the end of the buff, stat and effect handles are given back twice and the panel of a player is sent twice; from the end of the shield once |
| MobLaws.PanelCollateral | server/src/CMobBuffs.cpp:354-372 | On the panel of a player, removal from the end of the buff also empties slot 0, which is harmless if and only if the buff was shown there or slot 0 was empty |
| MobLaws.TakesAnother | server/src/CMobBuffs.cpp:347-352 | A forced removal takes no other live buff if and only if the shield it drops names none |
| MobLaws.HeadGoes | server/src/CMobBuffs.cpp:434-442 | Each pass of the expiry loop shortens the index, because its head names a live buff |
| MobLaws.ExpiredExact | server/src/CMobBuffs.cpp:434-442 | Expiry ends with no entry due and every due buff gone; where buffs and shields are linked exactly the due buffs and entries are gone |
| MobExpiry.ExpiryTakes | server/src/CMobBuffs.cpp:434-442 | The state after an expiry check is the state before it without the toll, a fold over the due entries of that state: each due buff still there, its shield, and the buff this names |
| MobExpiry.ExactlyDue | server/src/CMobBuffs.cpp:434-442 | Exactly the due buffs go if and only if no shield that the due buffs drop in their order names a live buff that is not due |
| MobExpiry.ExpiryTakesUndue | server/src/CMobBuffs.cpp:352-358 | A reachable state in which expiry takes a permanent buff |
| MobLinks.StepBacked | server/src/CMobClass.cpp:519-549 | Every operation but adding an absorbing buff alone or deleting shields alone keeps each absorbing buff paired with a shield that names it |
| MobLinks.EveryExpiryExact | server/src/Abilities/AbilityPsionicShield.cpp:288-331 | In every run in which each absorbing buff gets its own shield as it is added, as the shield abilities do, buffs and shields are linked and expiry takes exactly the due buffs |
| MobRuns.StepInv | server/src/CMobBuffs.cpp:84-442 | Add, refresh, remove, update, sector change, expiry, clearing, shield changes and hits all keep: every index entry names a live, non-permanent buff with that expiry, each id at most once, in time order, and every such buff is indexed |
| MobRuns.AddThenRemove | server/src/CMobBuffs.cpp:84-208 | Adding a buff without a shield and removing it again gives back exactly the handles its effects and stats were given, and leaves buffs, index and shields as they were |
| MobRuns.LowestGoes | server/src/CMobBuffs.cpp:301-311 | Each pass of the clearing loop removes a buff |
| MobHandles.StepGivesBack | server/src/CMobBuffs.cpp:301-409 | Every operation but adding and showing again only takes buffs off the record, and gives back every handle of each buff it takes and no other handle |
| MobHandles.NoHandleLost | server/src/CMobBuffs.cpp:84-442 | Over every run of all operations, each stat and effect handle ever given is on record with a buff or has been given back, as often as it was given |
| MobCleared.ClearedExact | server/src/CMobBuffs.cpp:301-311 | Clearing leaves no buff and no entry, gives back every handle of every buff on record, empties the panel slot of each, and with links in order takes exactly the shields that a buff names |
| MobCleared.ShieldsClearedExact | server/src/CMobClass.cpp:571-588 | Clearing the shields leaves none; unless only deleting, every buff a shield names goes, its handles given back and its slot emptied |
| MobCleared.RemovalBlanks | server/src/CMobBuffs.cpp:354-376 | A forced removal or an expiry empties the panel slot of every buff it takes and shows nothing new |
| MobOperations.AddedExact | server/src/CMobBuffs.cpp:84-208 | A new buff field by field: handles of exactly the effects and stats asked for, the first run-out slot, panel, index entry, id and calls |
| MobOperations.PlainRemovalExact | server/src/CMobBuffs.cpp:331-409 | A removal without a shield: record, entry, handles, and when panel slot and panel message follow |
| MobOperations.RemovedByNameExact | server/src/CMobBuffs.cpp:282-299 | Removal by name takes the lowest id with that name, expired or not, and what its shield names |
| MobOperations.RefreshedOrAddedExact | server/src/CMobBuffs.cpp:210-279 | The lowest buff of the name that has not run out is refreshed, and only without one a new buff is added |
| MobExpiry.EveryExpiryTakes | server/src/CMobBuffs.cpp:434-442 | In every reachable state an expiry check takes exactly its toll, all due buffs among it, and leaves nothing due |
| MobDamage.HitConserves | server/src/CMobClass.cpp:635-720 | For non-negative damage the loop leaves max(0, damage - total); the total falls by exactly what is absorbed; exactly the used-up shields and the buffs they name go; ids stay unique and what is left positive |
| MobUsable.EveryHitConserves | server/src/CMobClass.cpp:635-720 | In every reachable state a hit of non-negative damage leaves max(0, damage - total), takes exactly that much less from the total, and takes exactly the used-up shields and the buffs they name |
| MobUsable.StepUsable | server/src/CMobClass.cpp:519-720 | Every operation, hits of negative damage included, keeps shield ids unique and remaining capacitance positive |
| MobDamage.AbsorbedExact | server/src/CMobClass.cpp:635-720 | From any position on, the damage left, the shields left and the buffs gone are exactly those of wearing the rest of the list front to back |
| MobDamage.WornTotal | server/src/CMobClass.cpp:683-716 | Total capacitance falls by exactly what is absorbed |
| MobReactions.HitReacts | server/src/CMobClass.cpp:640-682 | A hit sends back exactly the reactions of the shields in order, each to the damage that those before it let through |
| MobReactions.ReflectionExact | server/src/CMobClass.cpp:645-656 | The share of the damage rounded up, or the limit; nothing without a source or for energy damage on the barrier |
| MobReactions.ReactorExact | server/src/CMobClass.cpp:658-682 | The share of the damage, at most the limit, as energy for a player, and as much for the group if the shield says so |
| MobExact.ShieldAddedExact | server/src/CMobClass.cpp:519-549 | The new shield is first, takes the place of an earlier one with its id together with the buff of that one, and keeps ids unique and capacitance positive |
| MobExact.RefreshedExact | server/src/CMobBuffs.cpp:227-262 | A refresh changes time and permanence of one buff and its display and the index entry of that buff; every other buff, entry, panel slot and handle stays |
| MobExact.SectorChangedExact | server/src/CMobBuffs.cpp:411-432 | After a change of sector each panel slot shows the displayed buff with the highest id from 0 to 15, or stays as it was; no buff, entry or shield changes |
| MobObject.CMob.RemoveDamageShield | server/src/CMobClass.cpp:479-514 | The three ways to unlink, on the linked nodes, remove exactly the first node with the id and reach the state of the step, the recursion into the buffs included |
| MobObject.CMob.RemoveNode | server/src/CMobClass.cpp:472-477 | A node that leaves the list removes the buff it names without coming back |
| MobObject.CMob.AddDamageShield | server/src/CMobClass.cpp:519-549 | An earlier shield with the id goes, with its buff; the new node is first |
| MobObject.CMob.FindDamageShield | server/src/CMobClass.cpp:554-569 | The first node with the id, or none |
| MobObject.CMob.ClearDamageShields | server/src/CMobClass.cpp:571-588 | Every node is dropped in turn, with its buff unless only deleting |
| MobObject.CMob.CommonDamageHandling | server/src/CMobClass.cpp:635-720 | The manually advanced loop over the nodes reaches exactly the state and the damage left of the step |
| MobObject.CMob.ShieldTurn | server/src/CMobClass.cpp:640-719 | One pass: reflection and energy, then absorption, removal by id, and the right next node |
| MobObject.CMob.Update | server/src/CMobBuffs.cpp:321-409 | The removal in place reaches the state of the step, through the mutual recursion with the shields, and touches no node when told to skip them |
| MobObject.CMob.AddBuff | server/src/CMobBuffs.cpp:84-208 | Slot search, effect and stat loops, panel, index and counter reach the state of the step |
| MobObject.CMob.FindFreeSpot | server/src/CMobBuffs.cpp:91-103 | The first panel slot whose display has run out, else slot 0 |
| MobObject.CMob.RefreshOrAddBuff | server/src/CMobBuffs.cpp:210-279 | The lowest id that can be refreshed is, and only if there is none a buff is added |
| MobObject.CMob.Refresh | server/src/CMobBuffs.cpp:227-262 | The old index entry goes and the new one is inserted where the multimap would |
| MobObject.CMob.RemoveBuff | server/src/CMobBuffs.cpp:282-299 | The lowest id with the name is removed by force; the result says whether there was one |
| MobObject.CMob.Clear | server/src/CMobBuffs.cpp:301-311 | The loop terminates and leaves both containers empty, as the step says |
| MobObject.CMob.ChangeSector | server/src/CMobBuffs.cpp:411-432 | Looking up ids 0 to 15 redisplays what is shown and leaves zero records for missing ids |
| MobObject.CMob.CheckBuffExpire | server/src/CMobBuffs.cpp:434-442 | The loop terminates and reaches the state of the step |
| MobObject.CMob.InsertExpiry | server/src/CMobBuffs.cpp:199-203 | The entry goes after every entry that is not later |
| MobObject.CMob.EraseExpiry | server/src/CMobBuffs.cpp:380-393 | Erases the first equal entry and no other |
| OutboxRuns.EveryRunDelivers | freya/status-notifier/main.go:289-337 | Over every run of inserts, drains failing anywhere, restarts and sweeps: a row marked sent has a marked resolution; nothing inserted is lost; rows are resolved in id order, again only after a failed mark, so each is marked at most once |
| OutboxRuns.EveryEditOnce | freya/status-notifier/main.go:364-376 | Over every run each message is edited at most once, and each edit replaces a wreck line posted for the same player at most 30 minutes before by that line struck through and the jumpstart line |
| OutboxRuns.RecordSurvives | freya/status-notifier/main.go:351-376 | Over every run without a restart, while the time of a wreck record lasts, the record is still there unchanged, whatever deliveries, edits and marks failed, or its message has been edited for that player, or another wreck of that player has been posted; until then no jumpstart of that player is consumed |
| OutboxRuns.WreckThenJumpstart | freya/status-notifier/main.go:351-376 | From every state, a delivered wreck of a named player and then a delivered jumpstart of that player: within half an hour the message of the wreck is edited, its line struck through and the other behind it; later the jumpstart is consumed |
| OutboxRuns.WreckDrained | freya/status-notifier/main.go:318-362 | The drain that posts a wreck leaves its record, or what has used it up, behind |
| OutboxRuns.RecordedExactly | freya/status-notifier/deaths.go:55-64 | Recording a wreck forgets exactly the records of others older than half an hour |
| OutboxRuns.SuppressedExactly | freya/status-notifier/main.go:318-328 | A drain suppresses exactly the rows whose kind is listed and switched off |
| OutboxRuns.FairWeatherDelivers | freya/status-notifier/main.go:289-337 | After any run, one drain without failures leaves every row ever inserted resolved and marked |
| OutboxRuns.DrainMarksPrefix | freya/status-notifier/main.go:318-336 | Each drain marks exactly an id-order prefix of what it read, one resolution each; it ends early at one row, resolved but unmarked if marking failed, untouched if delivery did |
| OutboxRuns.DeedEarned | freya/status-notifier/main.go:318-380 | A row is suppressed exactly when its kind is off, consumed exactly when a jumpstart finds no recent wreck, and posted or edited only when the channel took it |
| OutboxRuns.TurnInv | freya/status-notifier/main.go:318-336 | Handling the first unsent row keeps order and durability of table and log |
| OutboxRuns.TurnWrecks | freya/status-notifier/main.go:351-380 | Handling any row keeps: every record is of a posted, unedited wreck of its player, and every edit is founded on one |
| Outbox.NameInLine | freya/status-notifier/deaths.go:95-101 | Every line "Player <name> ..." yields exactly the name |
| Outbox.Relay.Drain | freya/status-notifier/main.go:289-337 | The batch loop with its early exits reaches exactly the state and outcome of the step |
| Outbox.Relay.DeliverEvent | freya/status-notifier/main.go:351-380 | Post, record, look up, edit, clear or consume, in place, as the step says |
| Outbox.Relay.ReadUnsent | freya/status-notifier/main.go:290-307 | Exactly the unsent rows, in id order |
| Outbox.DeathTracker.RecordDeath | freya/status-notifier/deaths.go:55-64 | The loop drops exactly the stale records and stores the new one |
| Outbox.DeathTracker.RecentDeath | freya/status-notifier/deaths.go:70-82 | A recent record is found and kept, a stale one dropped and missed |
| AuthToken.Pipeline | server/src/AuthWrapper.h:80-112 | From minted ticket to server: a datagram arrives unchanged if and only if its size is legal and its player id is 0 or bound to the minted token; otherwise a legal one is dropped for its token |
| AuthToken.TicketLearned | proxy/ClientToServer_linux_stubs.cpp:183-206 | From every ticket for a username without NUL, dashes included, the proxy learns exactly the minted 16 bytes and keeps exactly the username |
| AuthToken.TicketLearnedExactly | proxy/ClientToServer_linux_stubs.cpp:183-206 | For every username: the minted bytes are learnt if and only if it has no NUL or the part before the NUL is already a ticket for them |
| AuthToken.SplitsAgree | server/src/AccountManager.cpp:119-127 | Splitting a minted ticket at the first dash agrees with splitting at the last if and only if the username has no dash |
| AuthToken.HexRoundTrip | login-server/net7go/ticket.go:22-28 | Decoding the minted hexadecimal gives the bytes back; it holds no dash and no NUL |
| AuthToken.HexText | login-server/net7go/ticket.go:22-28 | Minted digits are lower-case, two a byte, the high half first |
| AuthToken.TicketBytes | login-server/net7go/ticket.go:22-28 | A ticket is username, dash and 32 digits |
| AuthToken.DigitsRead | proxy/ClientToServer_linux_stubs.cpp:157-181 | Digits of either case are read, and nothing else |
| AuthToken.Unlearned | proxy/UDPClient_linux.cpp:653-660 | Before a token is learnt, a datagram of a player passes only against a bound token of zeros |
| AuthToken.WireLayout | proxy/UDPClient_linux.cpp:625-662 | A wrapped datagram is a 1, the token or sixteen zeros, and the datagram from byte 17 on; more than 65536 bytes are not sent |
| AuthToken.CheckedExactly | server/src/AuthWrapper.h:80-112 | The verdict in terms of the bytes: sizes, first byte 1, player id in bytes 21 to 24 low byte first, token in bytes 1 to 16 |
| AuthToken.ProxyHexToBin | proxy/ClientToServer_linux_stubs.cpp:157-181 | Succeeds if and only if exactly the asked digits are followed by NUL, and then has written their value; on failure only a prefix has been written |
| AuthToken.Proxy.HandleGlobalConnect | proxy/ClientToServer_linux_stubs.cpp:183-233 | The token is set exactly when the string teaches one; the account name, what precedes the last dash, is kept only if sending the ticket brought an answer |
| AuthToken.Proxy.UdpSend | proxy/UDPClient_linux.cpp:625-662 | The wrapped datagram built by copies is version, token or zeros, datagram; too long a one is dropped |
| AuthToken.ConstantTimeTokenEqual | server/src/AuthWrapper.h:58-64 | The accumulated difference is zero if and only if all 16 bytes agree |
| AuthToken.CheckAuthWrapper | server/src/AuthWrapper.h:80-112 | The verdict over every record, limit and set of bindings |
| Launcher.ShotSpends | server/src/CMobEquippable.cpp:1419-1455 | Whether or not a reload finds a stack, launcher plus hold lose exactly min(s, q) rounds, and at most one slot changes: the first large enough, moved whole |
| Launcher.ShotDeals | server/src/CMobEquippable.cpp:1419-1455 | The damage scheduled, at once or over six ticks, is the damage of one round times min(s, q) |
| Launcher.EveryRoundCounts | server/src/CMobEquippable.cpp:1382-1528 | Over any engagement, with damage computed anew for each pull, launcher and hold lose exactly the rounds fired and the damage scheduled is the sum of damage per round times rounds fired |
| Launcher.RunsOut | server/src/CMobEquippable.cpp:1427-1445 | A shot leaves the launcher out of ammunition if and only if it takes the last loaded round and every fitting stack left is smaller than the shot |
| Launcher.ReloadTakes | server/src/CMobEquippable.cpp:1564-1603 | A reload takes the first stack of known ammunition of the right name, of no higher tech level, and large enough, or leaves the hold as it is |
| Launcher.ShotLands | server/src/CMobEquippable.cpp:1511-1526 | Plasma and chemical ammunition land in six equal parts one second apart from the delay on, other ammunition at once |
| Launcher.BeamLands | server/src/CMobEquippable.cpp:1496-1510 | A beam lands at once, or in six equal parts, the first at once and the others one to five seconds after the delay |
| Launcher.TypeOfNext | server/src/CMobEquippable.cpp:1511-1526 | The scheduled damage has the type of the ammunition fired if and only if there was no reload or the next stack is of the same type |
| Launcher.BeamDeals | server/src/CMobEquippable.cpp:1496-1510 | A beam deals its damage times the quantity if and only if it deals over time, the quantity is 1 or the damage is 0 |
| Launcher.Equipable.Reload | server/src/CMobEquippable.cpp:1564-1603 | Moves the first fitting stack of at least the quantity into the launcher and empties its slot, or changes nothing |
| Launcher.Equipable.Fire | server/src/CMobEquippable.cpp:1416-1455 | Damage scaled to the rounds there are, the stack lowered, reloaded or cleared with its flags |
| Launcher.Equipable.ShootAmmo | server/src/CMobEquippable.cpp:1382-1528 | The whole shot reaches the state of the step, or changes nothing without a target |
| Bytes.XorCancels | proxy/WestwoodRC4.cpp:50-50 | x ^ k ^ k is x for bytes |
| Bytes.XorBit | proxy/WestwoodRC4.cpp:50-50 | Each bit of x ^ k is set exactly if the bits differ |
| Bytes.DifferenceIsZero | server/src/AuthWrapper.h:58-64 | The accumulated or of differences stays zero exactly while bytes agree |

## Left out

- Sockets, threads, timers, clocks, randomness and logging: arrivals, ticks, send results, delivery results, lock order and minted bytes are inputs.
- Undefined C++ behaviour: bytes read past the end of a stored datagram are zero, and the 16384-byte split buffer has no bound in the model.
- Datagram payloads above 32755 bytes: the signed 16-bit size field cannot describe them.
- The expanders for 0x2011, 0x2012, 0x2018, 0x2019 and 0x2020 are recorded in the client log as handled frames, not expanded.
- Replay substitution, hexdump and drop filters, packet trace and message queue: diagnostics.
- A frame of length zero with an accepted opcode makes the walk spin for ever; the model calls this state hung and lets nothing follow it.
- Overflow of the head, of counters, of tick counts and of buff ids: they do not wrap.
- Which UDP client instance the active and login flags live on: the model has one.
- ReassemblerOrder.OrderInsensitive: stated for walks that pass without a hand-off, log-off or shut-down; those end the epoch.
- ReassemblerQuiet.QuietNetworkSettles: leaves out the key 2^63 - 1, which no 32-bit sequence has and only a head could count up to.
- ReassemblerSafety.StepNacks: for sequences 0 to 2^31 - 2; for all others ReassemblerSafety.PumpRequestExact says when the request of the timer is right.
- Resets of the loss counters by the galaxy-map handler: nothing modelled reads these counters.
- Plaintext connection types of the proxy connection, and a null data pointer given to it.
- Primality of the two published RSA factors is an assumption, `Rsa.KeyPrimes`; everything else about the constants is proved.
- C++ `WestwoodRSA::Encrypt`: it does not left-pad; the round trip uses the C# encryptor.
- Big-number libraries: `BN_bn2bin`, `BN_mod_exp` and `ModPow` are their mathematical functions.
- Rounding of floats: capacitance, damage and tokens are reals.
- The damage-type reductions before the shield loop and the hull damage after it; reflection and energy are events that do not come back to this mob.
- Fields a mob that is no player leaves uninitialised in a buff record: slot 0 and an empty display.
- Order of equal keys and lookup inside the standard multimap: a sequence sorted by time, insertion order among equals.
- Player panels of other objects, effect and stat systems: handles are inputs, calls are events.
- Sector membership and range of group members who share shield energy: one event for the group.
- Two writers of the outbox committing ids out of order: one game-server connection writes it, so ids appear in ascending order.
- A delivery that succeeds although the channel reports failure: the relay cannot see it either.
- Inserts while a drain runs: the drain works on what it read, so they are equivalent to inserts after it.
- UTF-8: message texts are sequences of characters, and the 2000 limit counts those.
- DTLS and OpenSSL, Argon2id, Postgres, Discord and the game content: not part of this model.
- Ticket expiry and storage on the server: bindings of players to tokens are an input of the check.
- Visual effects, hit and damage rolls of a shot: the damage of one round and the delay are inputs.
- The `NET7_LEGACY_WIN32` halves, the SSL listener, `SectorServerManager`, launcher and injection code, configuration and SQL loaders.
