# AnonymousAnt: a verified model of the tunnel protocol

AnonymousAnt is a VPN. A client reads IP packets from a TUN device, seals them under
session keys agreed in a one-round-trip handshake, and sends them over UDP or, with a
length prefix, over a TLS stream; the server looks up the session by the index in the
packet's header, opens the packet behind a 128-packet replay window, and routes replies by
virtual address.

The model follows that path. Code that changes state is modelled by classes, arrays and
loops and is proved against a specification; properties of whole runs are proved about
those specifications.

| file | what it holds |
|---|---|
| `Words`, `Buffer`, `Packet`, `Cipher` | little-endian words, the packet buffer with overlapping copies, the 14-byte header, nonces and sealing in place |
| `BitOps`, `Replay` | two-word shifts one bit at a time; the replay window and the set of accepted counters that it stands for |
| `Noise`, `Agreement`, `Attacker` | the handshake objects over a free algebra of terms; agreement between any number of runs; an attacker who is the network |
| `Session`, `Channel` | sessions and their table; one direction of a tunnel as a state machine over all interleavings |
| `Framing`, `Padding` | length-prefixed streams and the probe sniffer; block padding |
| `Client` | the client's packet loops, which refine `Channel` |
| `Dotted`, `Peers`, `Service`, `Server` | the text of addresses; the routing table as a log of registrations; the server as a state machine over all interleavings; the server's objects, which refine it |
| `Daemon`, `Address`, `Ownership` | the connect/disconnect lifecycle; address normalising and connection strings; who owns pooled buffers |
| `EndToEnd` | the layers together |

## Assumptions

- An AEAD is any pair of functions for which sealing adds 16 bytes and opening undoes
  sealing (`Cipher.Lawful`; `Cipher.ToyAead` shows that the laws can hold). Its integrity is
  not a law but a hypothesis on runs: `Channel.Unforged` says that no step of the run opened
  a ciphertext that was not sealed for a packet that was sent. The replay results, and
  everything in `Service`, do not need it.
- Hashes, derived keys and handshake ciphertexts are constructors of a free algebra, and
  Diffie-Hellman commutes (`Noise.SharedSecret`). Messages are lists of fields, not bytes;
  how 108 bytes read as such a list is a setting of the server (`Service.Config`). The
  attacker of `Attacker` computes with these constructors, opens what it has keys for, and
  has every private key that is not listed as secret.
- A packet buffer's slice is as long as its capacity, as the pool makes it.
- Fetch-and-add, a call on a mutex-protected object and work on thread-local data are
  atomic steps.

## Where the code and its words differ

The model follows the code in every case.

- The handshake comments give 96 and 48 bytes; the messages have 108 and 52
  (`pkg/crypto/noise.go:18-19`).
- The server takes every packet of 108 bytes for a handshake, so a data packet whose
  payload has 78 bytes never reaches its session (`Service.GenuineDispatch`,
  `Channel.PresentedExactlyWhen`).
- A packet is counted by the replay window before it is authenticated, so a packet that
  does not open can use up a counter: a bare header with the next counter, which anyone can
  write, costs the genuine packet (`Channel.ForgedHeaderCostsPacket`). Exactly what gets
  through is `Channel.DeliveredExactlyWhenTaken`; delivery at most once still holds.
- Refused handshake responses stay mixed into the initiator's hash, so after one the
  genuine response is refused as well (`Agreement.AcceptedExactlyWhen`).
- Padding stores its length in one byte but allows blocks of 512, so unpadding can leave
  256 bytes too many (`Padding.PadThenUnpad`, `Padding.RestoresAllExactlyUpTo256`).
- A TLS send makes two writes without a lock, so framing holds exactly when sends on a
  connection do not overlap (`Framing.FramingNeedsSerialSends`).
- A disconnect wipes the session but leaves its routing entry, and an ingress thread may
  have found the session before: the next use dereferences a nil cipher. Any peer that
  completes a handshake and sends a disconnect is enough (`Service.ShortVisitCrashes`; the
  repository's own clients never send one), and there is no other way to that end
  (`Service.CrashesExactlyWhen`).
- A disconnect removes whatever session its index names when it is acted on, which may by
  then be a newer one than the session that opened it (`Service.Ends`).
- Wiping a session clears the bitmap but not the greatest counter; the window then
  forgets which counters it accepted, but not how far it came
  (`Replay.ReplayWindow.ClearBitmap`).
- The first frame's length is not checked on the server as the later ones are: one out of
  range is skipped and the stream is read on (`Framing.BadFirstLengthIsSkipped`,
  `Framing.ServesWhatItParses`).
- Normalising an address is not idempotent on three colons in a row
  (`Address.IdempotentExactlyWhen`).
- The handshake follows the IK pattern of the Noise Protocol Framework, revision 34,
  section 7.5, but hashes the 32-byte protocol name (section 5.2 would use it directly),
  mixes no prologue and derives the final keys under a label of its own.

## Model

| member | source | states |
|---|---|---|
| Packet.DecodeAfterEncode | pkg/protocol/packet.go:39-57 | decoding the encoding of any header, followed by anything, gives the header back |
| Packet.EncodeAfterDecode | pkg/protocol/packet.go:39-57 | encoding a decoded header gives the same 14 bytes, so the additional data rebuilt by the receiver is what was on the wire |
| Packet.EncodeHeader | pkg/protocol/packet.go:39-44 | writes the type, the flags, and index and counter little-endian, byte by byte, at the given place and nowhere else |
| Packet.DecodeHeader | pkg/protocol/packet.go:47-57 | fails exactly below 14 bytes; otherwise type, flags, index and counter are what bytes 0, 1, 2 to 5 and 6 to 13 say, and the encoding of the header and the remaining bytes make up the input |
| Packet.LayoutDetermines | pkg/protocol/packet.go:39-57 | a header is laid out in 14 bytes if and only if they decode to it, and if and only if it encodes to them |
| Packet.PrependHeader | pkg/protocol/packet.go:62-82 | succeeds exactly when the header fits in front or after shifting; every payload byte survives the overlapping shift; the window moves back by 14 or to 0; nothing outside it changes; on failure nothing changes |
| Packet.StripHeader | pkg/protocol/packet.go:85-96 | fails exactly below 14 bytes; otherwise the header and the remaining bytes together are the old window |
| Buffer.Move | pkg/protocol/packet.go:75-76 | an overlapping copy inside one array moves the old bytes |
| Buffer.PacketBuffer.Fill | pkg/transport/tls.go:309-311 | filling a reset buffer holds exactly the received bytes, and keeps the window inside the storage exactly when they fit |
| Cipher.NonceInjective | pkg/crypto/cipher.go:66-69 | different counters give different nonces |
| Cipher.NonceIsLaidOut | pkg/crypto/cipher.go:66-69 | the nonce is four zero bytes and the counter little-endian, byte by byte |
| Cipher.EncodeNonce | pkg/crypto/cipher.go:66-69 | four zero bytes, then the counter |
| Cipher.EncryptInPlace | pkg/crypto/cipher.go:74-89 | the exact outcome by capacity and cipher; the window becomes the ciphertext, nothing else changes |
| Cipher.DecryptInPlace | pkg/crypto/cipher.go:93-109 | the exact outcome by length, cipher and authenticity; the window becomes the plaintext |
| BitOps.ShiftWithCarry | pkg/protocol/session.go:46-48 | shifting the two words by 1 to 63 with carry moves bit d - n of the 128 to bit d, for every bit |
| BitOps.ShiftByWord | pkg/protocol/session.go:43-45 | shifting by 64 to 127 moves bit d - n to bit d |
| BitOps.SetBit | pkg/protocol/session.go:60-67 | or-ing a mask sets that bit and no other |
| Replay.AdvanceRepresents | pkg/protocol/session.go:38-53 | moving the window forward, in all three cases of the shift, keeps "bit d is set exactly when maxSeq - d was accepted" |
| Replay.Decides | pkg/protocol/session.go:38-65 | the code's test passes exactly the counters that are not marked and less than 128 behind the greatest accepted one |
| Replay.ReplayWindow.CheckAndSet | pkg/protocol/session.go:34-69 | the two-word bitmap refines the plain sets of accepted and of marked counters: the decision and the new sets are those of the sets; they differ only after a wipe |
| Replay.ReplayWindow.ClearBitmap | pkg/protocol/session.go:156-162 | a wiped window marks nothing and keeps its greatest counter |
| Replay.ReplayWindow.constructor | pkg/protocol/session.go:27-31 | the never-used window stands for the empty set |
| Replay.AcceptsExactlyFirstInReach | pkg/protocol/session.go:34-69 | after any history, a counter is accepted exactly when it is presented for the first time and nothing 128 or more ahead came earlier |
| Replay.AcceptedIsFirstInReach | pkg/protocol/session.go:34-69 | the accepted set of any history, without reference to the window |
| Replay.PresentAll | pkg/protocol/session.go:34-69 | running the class on any history accepts, at every position, exactly a number that is new and less than 128 behind every earlier one |
| Noise.NoiseState.MixKey | pkg/crypto/noise.go:51-59 | the chaining key moves on and the key for the next seal is returned |
| Noise.NoiseState.MixHash | pkg/crypto/noise.go:61-66 | the transcript hash takes in the data |
| Noise.InitiatorHandshake.CreateInitiation | pkg/crypto/noise.go:101-148 | the message and the state left behind, on all exits and on any object, are those of the initiator's specification |
| Noise.InitiatorHandshake.ConsumeResponse | pkg/crypto/noise.go:151-205 | keys or error and the state left behind, on all exits; a refusal leaves the object's own fields alone, an acceptance zeroes the ephemeral key |
| Noise.ResponderHandshake.ConsumeInitiation | pkg/crypto/noise.go:230-334 | response, keys, symmetric state, peer key and peer index left behind, on all exits |
| Agreement.AcceptanceImpliesMatch | pkg/crypto/noise.go:151-205 | whatever the network did: if an initiator accepts a payload that some responder run sealed, that run consumed exactly this initiator's message, the keys mirror each other, the indices cross, and each end knows the other's static key |
| Agreement.AcceptedExactlyWhen | pkg/crypto/noise.go:101-205 | a responder's response is accepted if and only if it answers this initiator's message and no full-length response was refused before |
| Agreement.HonestEndsMatch | pkg/crypto/noise.go:101-334 | two honest ends whose messages are delivered complete the handshake and match; so the hypotheses of the results on arbitrary runs can hold |
| Agreement.PairingIsOneToOne | pkg/crypto/noise.go:101-334 | over any number of concurrent runs, acceptance pairs initiator runs with responder runs one to one |
| Attacker.AcceptedMeansAnswered | pkg/crypto/noise.go:101-205 | against an attacker who is the network and computes what it can: a response that an initiator accepts was made by a run of the responder it named, in answer to exactly its message, and the two match; only the two static keys need be secret |
| Attacker.AnsweredMeansBegun | pkg/crypto/noise.go:230-334 | a message that a responder answers as an honest initiator's was made by a run of that initiator for that responder |
| Attacker.KnowledgeIsBounded | pkg/crypto/noise.go:101-334 | the attacker never learns a key derived from two secret keys, nor a ciphertext under one that no honest run made |
| Attacker.DeliveryIsPossible | pkg/crypto/noise.go:101-334 | an attacker that only delivers does see the response, so the hypotheses on it can hold |
| Agreement.RefusalsStayInHash | pkg/crypto/noise.go:151-188 | after any list of refused responses the transcript hash has taken in the ephemeral key of each full-length one, in order, and nothing else |
| Agreement.SecretOfTwoKeys | pkg/crypto/keys.go:51-65 | a shared secret tells which two private keys made it; a low-order point is an error |
| Agreement.InitiationIs | pkg/crypto/noise.go:101-148 | the initiation in full: which secret of which two keys seals each of its parts, under which transcript, and the state left behind |
| Agreement.AnswerIs | pkg/crypto/noise.go:230-334 | on any message: exactly when a responder answers, and that its keys come from the secrets es, ss, ee and se, in this order, each given by its two keys |
| Agreement.FinishIs | pkg/crypto/noise.go:151-205 | on any response, after any refusals: exactly when an initiator accepts, and the keys it derives |
| Agreement.RefusedIs | pkg/crypto/noise.go:151-186 | what a refused response leaves in the initiator's hash and chain |
| Agreement.NoInitiation | pkg/crypto/noise.go:101-118 | a responder key of small order makes no initiation |
| Agreement.LearnedIs | pkg/crypto/noise.go:245-284 | what a responder keeps of a message that it does not answer |
| Agreement.HonestKeys | pkg/crypto/noise.go:101-334 | an honest handshake in full: the four secrets by the private keys of both ends, the sealing key, and the session keys and indices of both |
| Agreement.PayloadLayout | pkg/crypto/noise.go:139-141 | the index and the time in the payloads, little-endian, byte by byte |
| Session.WireRoundTrip | pkg/protocol/session.go:111-153 | header and payload are recovered from the packet that carries them |
| Session.WireLayout | pkg/protocol/session.go:111-131 | a packet is its header and the payload sealed with its own first 14 bytes as additional data and, as nonce, four zeros and its bytes 6 to 13; it is 30 bytes longer than the payload |
| Session.UnwireLayout | pkg/protocol/session.go:138-153 | and is opened with the same; below 30 bytes never |
| Session.SealOutcome | pkg/crypto/cipher.go:78-80 | sealing succeeds exactly when max(offset, 14) + length + 16 fits the buffer and the session is not wiped |
| Session.TunPacketsFit | pkg/buffer/pool.go:7-13 | every packet of up to 1420 bytes at the offsets that TUN drivers use can be sealed in 2048 bytes |
| Session.Session.EncryptPacket | pkg/protocol/session.go:111-131 | the counter moves on every call; the exact outcome; the window becomes the packet for the old counter and payload; nothing outside it changes; what each failure leaves |
| Session.Session.DecryptPacket | pkg/protocol/session.go:138-153 | the window counts the packet first, also on a wiped session, which then crashes; the exact outcome; on success the buffer holds the payload |
| Session.Session.Wipe | pkg/protocol/session.go:156-162 | both ciphers become nil, the window marks nothing, the greatest counter stays |
| Session.NewSession | pkg/protocol/session.go:88-108 | fails exactly for an unknown suite; keys and indices go to their places; the window is new |
| Session.RoundTrip | pkg/protocol/session.go:111-153 | sealing, stripping and opening in one buffer restores its bytes, for every offset and length that fits, returns the sealed header and uses up its counter |
| Session.SessionManager.Register | pkg/protocol/session.go:178-182 | every session stays under its own index, unwiped and with its own window |
| Session.SessionManager.Remove | pkg/protocol/session.go:192-200 | the session is wiped and leaves the table; the others are kept |
| Session.SessionManager.Clear | pkg/protocol/session.go:203-210 | the loop ends with an empty table and every session wiped |
| Channel.PresentedExactlyWhen | cmd/antserver/main.go:236-277 | a sender's packet reaches the receiver's window exactly when the indices agree and, towards the server, the payload does not have 78 bytes |
| Channel.NoncesNeverRepeat | pkg/protocol/session.go:111-131 | for every interleaving of callers, failing calls included, up to 2^64 calls never seal twice under one nonce |
| Channel.OneCallMoreRepeats | pkg/protocol/session.go:112 | the bound is exact: one call more repeats the first nonce |
| Channel.DeliveredAtMostOnce | pkg/protocol/session.go:138-153 | in every run, with forged packets and several receiver threads, no counter is delivered twice |
| Channel.DeliveredWasSent | pkg/protocol/session.go:138-153 | in a run without forgeries everything delivered was sent, with the same header and payload |
| Channel.DeliveryIsFaithful | pkg/protocol/session.go:111-153 | the delivered log maps one to one into the sent log, and neither holds a counter twice |
| Channel.DeliversExactlyWhatOpens | pkg/protocol/session.go:138-153 | in every run, forged packets or not: what was delivered is exactly what the packets that the window let through open to |
| Channel.DeliveredExactlyWhenTaken | pkg/protocol/session.go:138-153 | when no forged ciphertext opens, whatever else is presented: a record is delivered if and only if it was sent and its packet brought its counter to the window first and in reach |
| Channel.ForgedHeaderCostsPacket | pkg/protocol/session.go:140-147 | a run in which a bare forged header takes the counter and the genuine packet, which arrives in reach, is lost |
| Channel.DeliveredExactlyWhenInReach | pkg/protocol/session.go:34-69 | with genuine packets only the counters decide: a sent packet is delivered if and only if its first copy to arrive came before anything 128 or more ahead |
| Channel.BoundedReorderingLosesNothing | pkg/protocol/session.go:138-153 | when reordering stays within 128 counters, every packet that arrives is delivered |
| Client.TunnelClient.EgressTurn | cmd/antclient/main.go:195-214 | a packet from the TUN device moves the client by a fetch-and-add and a seal of type 3, and is sent, exactly when it fits |
| Client.TunnelClient.KeepaliveTurn | cmd/antclient/main.go:255-270 | the heartbeat seals and sends an empty packet of type 4 |
| Client.TunnelClient.IngressTurn | cmd/antclient/main.go:217-252 | a received packet is presented, if it names this session, and opened, and its payload written if it is data |
| Client.RunClient | cmd/antclient/main.go:195-270 | any turns of the three loops send and write exactly what two runs of the state machine send and deliver |
| Framing.ClientReadLoop | pkg/transport/tls.go:246-267 | the loop ends on every finite stream and hands over exactly the packets that the grammar of frames gives, or as many of them as came before it saw the transport closed |
| Framing.TLSTransport.HandleServerConn | pkg/transport/tls.go:176-243 | closed, decoy page or tunnel, and the packets handed over, for every stream, deadline and moment of closing; a tunnel's connection is registered for its loop and removed after it |
| Framing.TLSTransport.Send | pkg/transport/tls.go:270-299 | appends one frame in two writes to the connection of the target; a write that fails leaves a beginning of the frame; an error exactly without a connection or room |
| Framing.ParseExactly | pkg/transport/tls.go:246-267 | the packets taken are the one list of legal packets whose encoding starts the stream and after which no whole legal frame follows |
| Framing.ParseStream | pkg/transport/tls.go:246-285 | reading inverts sending, for every list of packets of 1 to 2048 bytes |
| Framing.TruncatedStream | pkg/transport/tls.go:246-267 | a stream cut anywhere gives a prefix of the packets |
| Framing.LegalFrameIsNoProbe | pkg/transport/tls.go:190-200 | the high length byte of a frame is at most 8, so no frame is taken for a web probe |
| Framing.DecoyExactlyFor | pkg/transport/tls.go:191-202 | the decoy page is for exactly the streams that begin with the bytes of GE, PO or HE |
| Framing.FrameLayout | pkg/transport/tls.go:271-272 | a frame is the low and the high byte of the length and the packet |
| Framing.LengthOf16 | pkg/transport/tls.go:253 | the two bytes read before a packet are its length, the low byte first |
| Framing.ServeStream | pkg/transport/tls.go:176-243 | the server recovers every list of legal packets, and a prefix of it when the stream is cut |
| Framing.UnguardedIs | pkg/transport/tls.go:214-221 | the packet that is handed over even while the transport closes is a whole legal frame at the start of the stream |
| Framing.ServesWhatItParses | pkg/transport/tls.go:212-243 | the server takes the packets that the client's loop would, if and only if the stream is no probe and its first length is in range or nothing whole follows it |
| Framing.BadFirstLengthIsSkipped | pkg/transport/tls.go:212-219 | two zero bytes in front of a frame are skipped by the server, where the client's loop gives up |
| Framing.ServedPacketsFit | pkg/transport/tls.go:302-315 | on any stream only packets of 1 to 2048 bytes come out, so receiving never truncates |
| Framing.OverlapInventsPacket | pkg/transport/tls.go:278-281 | when sends overlap, for payloads of any legal length above 1, the peer can receive a packet of that length that nobody sent |
| Framing.FramingNeedsSerialSends | pkg/transport/tls.go:270-299 | for every schedule of the two writes of any number of sends: all payloads get through, whatever they are, if and only if no two sends overlap; that all have the same length does not help |
| Padding.PadsToLeastMultiple | pkg/obfuscation/padding.go:27-33 | the padded length is a multiple of the block size, above the length and at most a block above |
| Padding.LeastMultipleUnique | pkg/obfuscation/padding.go:27-33 | which determines it |
| Padding.EffectiveIs | pkg/obfuscation/padding.go:20-25 | block sizes from 1 to 512 are used as they are, others become 128 or 512 |
| Padding.PadPacket | pkg/obfuscation/padding.go:19-51 | the exact outcome; the window becomes the padded payload, as long as the least multiple of the block size above it; only bytes behind it change; a random source that fails may have written part of them |
| Padding.UnpadPacket | pkg/obfuscation/padding.go:54-68 | the window becomes what unpadding its bytes gives, or nothing changes |
| Padding.UnpadExactly | pkg/obfuscation/padding.go:54-68 | unpadding gives the beginning that leaves the last byte and as many bytes as it says, and fails exactly when there are not so many |
| Padding.UnpadAfterPad | pkg/obfuscation/padding.go:19-68 | unpadding a padded payload leaves 256 bytes of padding for every 256 that there were |
| Padding.PadThenUnpad | pkg/obfuscation/padding.go:19-68 | and so in place |
| Padding.RestoresAllExactlyUpTo256 | pkg/obfuscation/padding.go:19-68 | the round trip gives back every payload, whatever the noise, if and only if the effective block size is at most 256 |
| Peers.ResolvesToLatest | cmd/antserver/main.go:196-222 | a packet goes to the latest registration for its address, without one to the latest of all, and nowhere only before any |
| Peers.PeerTable.Register | cmd/antserver/main.go:196-212 | entries mutated in place and the aliased default refine a log of registrations; different keys never share an entry |
| Peers.PeerTable.Lookup | cmd/antserver/main.go:214-222 | what the log resolves to, nil exactly when it is empty |
| Dotted.QuadIsText | cmd/antserver/main.go:134 | the text of an address is the four numbers in decimal without leading zeros and three dots |
| Dotted.QuadUnique | cmd/antserver/main.go:134 | an address has one such text |
| Dotted.QuadInjective | cmd/antserver/main.go:134 | different addresses have different texts |
| Service.DispatchLaw | cmd/antserver/main.go:236-277 | 108 bytes are a handshake, fewer than 14 nothing, and all others go to the index in bytes 2 to 5 |
| Service.SourceLaw | cmd/antserver/main.go:285-291 | the address learned from a data packet is the text of its bytes 12 to 15 when it is IPv4, and the default otherwise |
| Service.DestinationLaw | cmd/antserver/main.go:131-139 | the address looked up for a packet from the TUN device is the text of its bytes 16 to 19 when it is IPv4, and empty otherwise |
| Service.AdmitLaw | cmd/antserver/main.go:237-266 | a handshake makes nothing or one session, with exactly its keys, indices, transport and address |
| Service.ArriveLaw | cmd/antserver/main.go:267-276 | any other packet is taken up for the session that its header names, or dropped |
| Service.ActLaw | cmd/antserver/main.go:282-304 | what an opened packet of type 3, 4, 5 or any other does |
| Service.RouteLaw | cmd/antserver/main.go:141-145 | when a packet from the TUN device is sent, its bytes, and its transport and address |
| Service.RouteNowhere | cmd/antserver/main.go:141 | it goes nowhere exactly before any registration |
| Service.RepliesReturn | cmd/antserver/main.go:131-145 | in any run, after a data packet from address A every packet for A goes back to its session, transport and address, until A is registered again |
| Service.GenuineDispatch | cmd/antserver/main.go:236-277 | a session's packet is dispatched to it if and only if its payload does not have 78 bytes |
| Service.TableHoldsNewest | pkg/protocol/session.go:178-200 | in every interleaving the session table holds, under each index, the newest session made under it, exactly while that lives |
| Service.DeadExactlyWhenEnded | cmd/antserver/main.go:301-303 | a session has lost its ciphers if and only if an opened disconnect was acted on while the table held it under the index that the disconnect names |
| Service.CrashesExactlyWhen | cmd/antserver/main.go:122-147 | the server dies if and only if some step uses a session so ended, to seal a packet that leaves room or to open one long enough |
| Service.ShortVisitCrashes | cmd/antserver/main.go:301-303 | after any run that leaves the ingress threads idle: a peer that completes a handshake and sends a disconnect makes the server die on the next packet from the TUN device that is for the default address or for none learned before |
| Service.WrittenAtMostOnce | cmd/antserver/main.go:282-295 | in every interleaving, across disconnects and replaced sessions and whoever made the packets, no packet of a session reaches the TUN device twice |
| Service.WindowsAreIndependent | pkg/protocol/session.go:138-142 | the window of a live session, made at any point of the run, has accepted exactly what its own counters give, as if no other session and thread were there |
| Service.WrittenIsTheClients | cmd/antserver/main.go:237-295 | handshake and dispatch composed: what is written to the TUN device from a session came in a packet that reached the server, names the index that the session's client was given, and is what that packet opens to under the key that this client seals with |
| Server.Server.HandleIncomingPacket | cmd/antserver/main.go:224-305 | the objects refine the state machine: handshake included, one packet moves sessions, table, routing log, TUN device and replies by exactly its four steps |
| Server.Server.HandleHandshake | cmd/antserver/main.go:236-266 | an initiation that the responder answers makes one live session with an unused window and its keys, enters it in both tables and is answered; any other changes nothing |
| Server.Server.RouteEgress | cmd/antserver/main.go:122-147 | a packet from the TUN device goes, under that peer's next counter, to the peer that the routing log resolves to, is dropped, or kills the process; only that peer's counter moves |
| Server.Server.ServeAll | cmd/antserver/main.go:118-164 | any list of packets from clients and from the TUN device moves the objects by a run of the state machine, up to its death |
| Server.RunServer | cmd/antserver/main.go:118-164 | a server from start to end: it survives if and only if no step uses an ended session, and the TUN device gets exactly what the run writes |
| Server.SameResolution | cmd/antserver/main.go:214-222 | routing by session number and by session object agree on every log |
| Daemon.DaemonState.HandleConnect | cmd/ant-daemon/main.go:72-199 | the exact response for every combination of failures; every failure exit restores what it had acquired; success brings up transport, session and, with a TUN device, routes; and the kill switch exactly when it was asked for and the system can |
| Daemon.DaemonState.HandleDisconnect | cmd/ant-daemon/main.go:265-296 | releases everything, restores the routes, switches the kill switch off and never closes a channel twice |
| Daemon.DaemonState.HandleGetStatus | cmd/ant-daemon/main.go:298-339 | reports state, traffic, uptime and memory; an active kill switch is reported only when connected and asked for |
| Daemon.DaemonState.HandleAll | cmd/ant-daemon/main.go:45-56 | over every sequence of requests, with any failures, and of packets: one transport is open when connected and none otherwise, TUN devices and routes balance, an enabled kill switch means connected, and every packet is counted |
| Daemon.BytesAreTotals | cmd/ant-daemon/main.go:211-212 | the byte counters stay the totals since the start, modulo 2^64, across connects and disconnects |
| Daemon.ConnectedExactlyWhen | cmd/ant-daemon/main.go:45-56 | connected exactly when a connect could succeed, or it was so before, and no disconnect followed |
| Daemon.ConnectNeeds | cmd/ant-daemon/main.go:93-109 | which transports and which calls a connect needs |
| Daemon.PacketsAreCounts | cmd/ant-daemon/main.go:212-213 | the packet counters count, modulo 2^64 |
| Daemon.KillSwitch.Enable | pkg/security/killswitch.go:30-111 | enabled on Linux always, on macOS when the rules load, and left as it was elsewhere |
| Address.NormalizeInSteps | pkg/transport/tls.go:116-125 | the step-by-step normalisers compute what the daemon's does |
| Address.SpacesAre | cmd/ant-daemon/main.go:59 | what counts as white space, by code point |
| Address.SpaceAround | cmd/ant-daemon/main.go:59 | white space around an address does not matter |
| Address.RunsAreHalved | cmd/ant-daemon/main.go:60-62 | a run of colons becomes one of half as many, rounded up |
| Address.DoubledColon | cmd/ant-daemon/main.go:60-62 | a pair of colons becomes one, except behind a bracket |
| Address.DefaultPort | cmd/ant-daemon/main.go:63-68 | port 8443 where there is none, and where it is empty |
| Address.SanitizedShape | cmd/ant-daemon/main.go:58-70 | the result is trimmed, has a colon, does not end in one, and has a pair of colons only behind a bracket or from three in a row |
| Address.NormalIsFixed | cmd/ant-daemon/main.go:58-70 | exactly which addresses are left alone |
| Address.IdempotentExactlyWhen | cmd/ant-daemon/main.go:58-70 | normalising twice is normalising once if and only if the trimmed address begins with a bracket or has no three colons in a row |
| Address.ParseURL | cmd/antclient/main.go:282-322 | the loop over the query gives the specified key, host, mode and SNI, or error |
| Address.ParseErrors | cmd/antclient/main.go:283-290 | a wrong scheme, and anything but one @ behind it, are the only errors |
| Address.OptionIs | cmd/antclient/main.go:300-307 | obfs= sets the mode and sni= the server name |
| Address.OtherPart | cmd/antclient/main.go:300-307 | no other part of the query does anything |
| Address.ParsePlain | cmd/antclient/main.go:294-322 | without a query the mode is tls and there is no server name |
| Address.ParseBoth | cmd/antclient/main.go:294-322 | with both options, in either order, mode and server name are their values |
| Address.ParseInvertsConnectionString | cmd/antserver/main.go:70 | parsing the printed string gives back key and mode, and the address exactly when it is in normal form |
| Address.HostPortIsNormal | cmd/antserver/main.go:70 | a colon-free host with a port is so exactly when it does not begin with a space |
| Ownership.LoopsAreDisciplined | cmd/antclient/main.go:195-270 | on every path of every loop a buffer is got before use and put back exactly once |
| Ownership.LoopsAre | cmd/antclient/main.go:195-270 | the loops spelled out: the calls of an undisturbed iteration and the number of ways through it |
| Ownership.BuffersAreOwned | pkg/buffer/pool.go:64-77 | for any number of loops and every interleaving, every buffer that was made is in exactly one place: the pool, the collector, or one variable of one thread in the middle of an iteration |
| Ownership.NothingIsLost | cmd/antserver/main.go:122-164 | between iterations everything was put back |
| Ownership.TouchedIsOwned | cmd/antserver/main.go:122-164 | a loop touches and puts back only a buffer that it holds |
| EndToEnd.SentPackets | pkg/protocol/session.go:111-122 | every packet of every run names the receiver and has at least 30 bytes |
| EndToEnd.SentPacketsSurviveFraming | pkg/transport/tls.go:190-243 | sent over one stream, the packets of a run come out of the server's reader as they went in, up to the first that does not fit a buffer, where the reader stops |
| EndToEnd.TunnelIsFaithful | pkg/protocol/session.go:111-153 | handshake, session and window composed, in both directions: what a matched tunnel delivers was sent, at most once, under nonces that never repeat; exactly what gets through, and that bounded reordering loses nothing that arrives |
| EndToEnd.WrittenWasSent | cmd/antserver/main.go:237-295 | for every interleaving of the server over all its sessions and every run of one client's senders: what the client's session writes to the TUN device maps one to one into what that client sent, header and payload, if no packet that opens under its key was forged |
| EndToEnd.Establish | pkg/crypto/noise.go:101-334 | running the handshake objects gives two live sessions, each of which opens what the other seals |
| EndToEnd.SealAll | cmd/antclient/main.go:195-214 | payload k is sealed under counter k |
| EndToEnd.Relay | pkg/protocol/session.go:111-153 | the session objects over any schedule of loss, duplication and reordering deliver exactly the payloads whose first copy came in reach, in order of arrival |

## Left out

- Server.Server.HandleIncomingPacket: one packet at a time; how the steps of several ingress threads and of the egress loop interleave is in Service.
- Service.WrittenAtMostOnce: admitting a handshake (session table, then routing table), acting on an opened packet (routing table, then TUN device) and routing a packet from the TUN device (lookup, then seal) are one step each; an entry of the routing table that is overwritten while the egress loop reads it is not modelled.
- Server.Server.ServeAll: packets that fit a buffer, as every TLS and TUN packet does.
- Framing.TLSTransport.HandleServerConn: a full channel that blocks for ever is not modelled; how many bytes come before the deadline is an argument.
- Framing.ClientReadLoop: when the transport is closed, how many packets were handed over before is an argument.
- Framing.TLSTransport.Send: how many bytes a connection takes before it fails is an argument.
- Cipher.DecryptInPlace: what a failed opening leaves in the window is not stated.
- Noise.ResponderHandshake.ConsumeInitiation: messages are lists of symbolic fields, so offsets inside the 108 and 52 bytes are not modelled; longer input is read like its prefix, as in the code.
- Daemon.DaemonState.HandleConnect: host resolution and the commands behind routes and kill switch are not modelled, and of the packet loops it starts only the counting is; whether the TUN device opens and whether the rules load are arguments.
- Daemon.DaemonState.HandleGetStatus: the time and the memory figure are arguments.
- Buffer.PacketBuffer.Fill: slices with spare capacity are not modelled.
- Ownership.BuffersAreOwned: a loop that ends is taken to start another iteration, which allows more runs than the code; a process that dies in the middle of one is not modelled.
- Curve25519, ChaCha20-Poly1305, AES-GCM, SHA-256, HKDF, base64 and hexadecimal: library code.
- TUN drivers, routers, NAT and the commands behind the kill switch: system calls.
- TLS certificates, dialling, UDP sockets and the WebSocket transport; the last bounds no message before filling a buffer of 2048 bytes.
- IPC, user interface, deployment scripts, the mobile bridge and the log sanitiser.
- Clocks: activity times, jitter, the session lifetime (declared, never enforced) and the handshake timestamp (sent, never checked).
- Data races between the daemon's loops and a disconnect: its requests are modelled one after another.
- Secrecy of payloads, zeroing of memory and traffic analysis.
- Random indices and ephemeral keys are arguments; that two sessions draw different indices is not assumed, and a later session replaces an earlier one under its index.
