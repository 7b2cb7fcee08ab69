# NBF anonymous routing: a verified model

NBF builds an anonymous circuit in one round trip. The origin draws one Sphinx header for a
whole route, sends it fragmented in CREATE cells, and every hop peels one layer, derives its
traffic keys and passes a shorter header on; CREATED travels back. Data then moves in
fixed 1280-byte RELAY cells under one AEAD layer per hop. Nodes find each other through a
small Kademlia table whose records are signed descriptors. This project models that logic in
Dafny, as pure specification functions, as the loops and in-place updates of the source
proved against them, and as state machines whose whole runs are reasoned about.

`dafny verify dfyconfig.toml` checks everything.

## How it is organised

- `Octets`, `Scalars`, `Crypto`, `Wrappers`: bytes and little-endian integers, scalars modulo
  the group order with their canonical 32 bytes, and the primitives behind the `Suite` type.
- `Sphinx`, `SphinxMachine`: the header, its peel theorem, and the loops that build and process it.
- `Onion`, `Cells`, `Fragments`, `Wire`, `Identity`: RELAY layers, cells, CREATE fragments and
  their reassembly, the whole wire path, and the signed descriptor.
- `Engine`, `NodeMachine`, `Handlers`, `Ids`: one node as functions from state to state and cells, the
  `Node` object whose methods have exactly those effects, exactly what it does with any cell and any
  operation, refusals included, and invariants of everything it can go through.
- `Network`, `Construction`, `Pipeline`, `Echo`, `Duplicates`, `Replay`, `Lives`, `EndToEnd`, `Teardown`:
  runs of many nodes.
- `Traffic`, `Bystanders`, `Crowd`: the same with any other circuits' traffic at the same nodes.
- `Metric`, `Table`, `Lookup`, `Rpc`, `Dht`, `Agreement`: the XOR metric, the routing table, the
  iterative lookup, the datagram codec, the DHT node, and agreement across nodes.

## Main results

1. **Peel theorem.** For every route of up to 255 hops, every tag, scalars and KEM coins, folding
   `process_header` over the hops' identities gives each hop its own keys and the next hop's id
   and IPv4 address, and the last hop Terminal, if and only if no later hop carries the terminal
   marker as its id. On arbitrary bytes a hop accepts a header if and only if it is of the right
   version and length, its blob opens under the key of the point shared with the first slot, and the
   ciphertext inside decapsulates; the outcome is read off the open layer. What it hands on is exactly
   one slot and one layer shorter, so a CREATE crosses at most as many hops as its count byte says.
2. **Construction over every schedule.** Whatever order the CREATE fragments arrive in, every hop
   ends up holding under the id it was given the entry the origin planned, with links matching its
   neighbours', and the origin is woken if and only if the origin and every hop but the last drew
   the same circuit id. Hops may hold any other circuits and keep them, except that one they held
   under the very id they are given is overwritten; `EndToEnd.DisagreeingTimesOut` is a network in
   which the build fails.
3. **End to end, alone and in a crowd.** A build over any delivery order succeeds exactly then, and
   afterwards, for any FIFO interleaving of sends and deliveries, the origin's streams receive exactly
   the ECHO messages, unchanged and in order. The number of deliveries needed is bounded. Circuits do
   not interfere: all this is so while other circuits' cells of every kind arrive at the same nodes
   in any order, are lost, repeated and invented, and other circuits are used and torn down there,
   and, once the circuit is built, also built (`EndToEnd.CrowdedEndToEnd`).
4. **Lossy links.** Over links that lose, duplicate and reorder the circuit's own cells its streams
   receive nothing but messages sent as ECHO, each of them at most once unless a cell is copied on
   its way back; and any such copy, on any link and whatever else is in flight, can arrive as a
   second delivery.
5. **Replay safety over every schedule** with cells of all kinds lost, duplicated, reordered and,
   but for RELAY cells on the circuit's links, invented, while the circuit's nodes build and lose
   any other circuits: within one life of the circuit's own entries, accepted sequence numbers
   strictly increase at every hop, and a hop's are a subsequence of those of every hop before it.
   This holds of every circuit that construction leaves behind among nodes in any state they can
   reach before their id counters wrap (`Ids.ReachableInOrder`). Over arbitrary cells an entry's mark falls if and only if a CREATE
   completes under its id with a header the node accepts. So until one does a terminal never seals
   two replies under one number, forged cells included, and `Lives.RepeatedCreateReseals` shows that
   afterwards it does.
6. **Reassembly.** Whatever fragments arrive, honest or not, an answer is given exactly when every
   index below the total has come since the circuit's last answer or change of total, and it is the
   first chunk for each index, in order. So a payload comes out of any order, with repeats, other
   circuits and leftovers of another fragment count in between, and fragmenting and reassembling is
   the identity exactly up to 65535 * 1268 bytes.
7. **No oversized cell** in any honest run, and the exact case in which a node would panic in `encode`.
8. **Refusals.** What each handler does with any cell from anybody, and each operation with any
   arguments, is stated exactly: in particular an origin's stream receives data if and only if the
   payload opens under every backward key, a relay ignores cells from anybody but its two
   neighbours, and a build that has timed out is woken by no later CREATED (`Handlers`).
9. **Teardown.** DESTROY cells die out from any network state; closing a circuit clears the origin
   and its first hop and nothing else.
10. **Table confluence.** `try_merge` keeps exactly the 64 ids nearest to the node, so batches in any
    order give the same ids in the same order. Merging in two batches is merging at once, and the
    order of two batches leaves no trace in the contacts exactly when they agree on every new id
    that both bring and that is kept.
11. **Lookup** ends against every responder, asks nobody twice, each round nearest first, so that the
    nearest answer wins, and without a value has asked all of the K contacts finally closest to the key.
12. **Agreement.** Stores hold under a key only authentic descriptors of that key, whatever
    datagrams arrive, and nothing but a STORE changes a node; through honest responders lookups
    return and cache nothing else. A cached descriptor is found first, then a stored one, then what
    the network says, and what was found is found again. A node
    without the value has right lookups from every table exactly when no contact of another node
    answers with a foreign descriptor.

## Assumptions about the libraries

A `Suite` is any choice of primitives with these laws; `Crypto.Toy` shows they are consistent.
Opening undoes sealing and sealing adds 16 bytes (section 2.8 of RFC 8439); whatever opens loses
exactly 16 bytes; HKDF returns the length asked for; decapsulation returns the encapsulated
secret (sections 7.2 and 7.3 of FIPS 203, taken as perfect); a signature verifies under its own
key (section 5.1 of RFC 8032). Hashes, HKDF and point multiplication are otherwise arbitrary
functions. Scalars are concrete, so the blinding chain is proved. Random scalars, KEM coins, tags
and the clock are parameters.

## Hypotheses the code needs

- **Circuit id.** A relay stores its entry only under the incoming id
  (crates/nbf-net/src/node.rs:254-270), but backward cells carry the id of the next link
  (crates/nbf-net/src/relay.rs:24-33). A cell under an unknown id is dropped
  (`Engine.UnknownIdIsDropped`), so CREATED comes home exactly when all positions before the last
  hop drew the same id. `Construction` proves this as an if-and-only-if instead of assuming it;
  `Echo.Chain` has one id on every link.
- **Direction** is decided by sender address (crates/nbf-net/src/relay.rs:60-61), so addresses on a
  route are distinct.
- **Atomic handlers.** The RELAY handler reads a copy of the entry and writes `last_fwd` later
  (crates/nbf-net/src/relay.rs:24-29, 71-75); each handler is one atomic step here.
- **Pending.** The waiter is registered after CREATE has been sent
  (crates/nbf-net/src/builder.rs:49-60); the model registers it in the same step.
- **Unused ids.** Construction starts with hops that are not collecting a header of the same fragment
  count under the id they are given and hold no circuit or waiter under the id they will draw, whose
  descriptors name IPv4 addresses, and whose ids are not the terminal marker. They may hold anything else. Replay safety of what is built
  needs moreover that the hops' 32-bit id counters have not wrapped around yet
  (`EndToEnd.Orderly`), so that a newly drawn id is on none of a hop's links; that and nothing else
  is assumed of their tables, since `Ids.ReachableInOrder` proves the rest of every reachable state.
- **One life.** A CREATE that completes again under a circuit's id, even a repeat of the one that
  made the entry, installs it anew with its mark at zero (crates/nbf-net/src/node.rs:222-236), so
  replay safety is stated for runs in which the circuit's own entries are not installed anew or
  removed. The circuit's nodes may install and remove any other entries, except that a CREATE
  completing at a hop must not come from the next hop under the id the circuit uses there, nor be
  given that id onwards (`Replay.Crosses`): a node tells circuits on a link apart by the id alone.
- **Ids do not collide in a crowd.** For the same reason the results about crowds are for runs in
  which nobody but the circuit itself sends to its nodes under the ids it uses there
  (`Traffic.Apart`), and during the build its nodes draw no other ids (`Bystanders.Discreet`): one
  drawn in between would change which ids have to agree.

## Where documentation and code differ

The code is followed. `docs/PROTOCOL.md` gives a layer 1184 bytes; the code's is 1168
(crates/nbf-crypto/src/lib.rs:28-30). It blinds with SHA-256; the code uses SHA-512
(crates/nbf-crypto/src/sphinx.rs:66). It has the hop multiply alpha by its private scalar; the code
multiplies the hop's public point by the raw scalar in the slot
(crates/nbf-crypto/src/sphinx.rs:181-186). It gives FOUND a one-byte count and a length before the
value; the code has a two-byte count and no length (crates/nbf-dht/src/rpc.rs:107-119). A comment
(crates/nbf-net/src/node.rs:135) has sequence numbers start at 64 so that sealing does not
underflow; sealing subtracts nothing from them. The node declares a `MAX_HOPS` of 8
(crates/nbf-net/src/node.rs:17) that builds do not use; theirs is 5 (crates/nbf-crypto/src/lib.rs:32).

## Properties that hold only under a condition

- Fragment round trip: exactly for payloads of at most 65535 * 1268 bytes, because the count is cut
  to 16 bits (`Fragments.ReceivedExactly`, `Wire.SentInOrder`).
- Datagram round trip: exactly for at most 65535 contacts and verifying descriptors (`Rpc.RoundTrip`).
- Every send passes the sequence checks: exactly when the counter is above the hops' marks and does
  not wrap during the run (`Echo.AllPassExactly`).
- A circuit build succeeds: exactly when the ids agree (`EndToEnd.BuiltCircuitsEcho`);
  `EndToEnd.DisagreeingTimesOut` is the failing case.
- A node's answers fit a cell: exactly unless it is a relay wrapping a backward payload within 16
  bytes of the limit (`Wire.AnswersFitExactly`); `Wire.OversizedAnswer` is the failing case.
- Lookups of a node that has no value itself return only the key's descriptor: exactly when no
  contact of another node answers with another one (`Agreement.RightExactlyWhenAnswersAre`);
  `Agreement.ForeignAnswerIsCached` is the failing case.
- Two batches of contacts leave the same table in either order: exactly when they announce the same
  contact first for every new id that both bring and that is among the 64 kept
  (`Table.MergeConfluentTables`); `Table.MergeOrderMatters` is the failing case.
- A header visits its whole route: exactly when no later hop carries the terminal marker
  (`Sphinx.PeelRoute`).
- A terminal seals each number once: on every run in which no CREATE completes under its id
  (`Lives.TerminalSealsOnce`); `Lives.RepeatedCreateReseals` is the failing case.
- A reply reaches the origin's stream at most once: exactly when no cell is copied on its way back,
  where nothing checks sequence numbers. Without such a copy no number is delivered twice, whatever
  else is lost, copied and reordered (`Duplicates.RepliesArriveOnce`); after any run, any cell on its
  way back that is copied has a continuation that delivers its message twice
  (`Duplicates.CopiedReplyArrivesTwice`).

## Model

| member | source | states |
|---|---|---|
| Sphinx.PeelHop | crates/nbf-crypto/src/sphinx.rs:165-238 | hop t, holding the keys of its descriptor, finds in the header meant for it exactly its key pair, the next hop's id and address, and the header meant for hop t + 1 |
| Sphinx.PeelRoute | crates/nbf-crypto/src/sphinx.rs:46-238 | for any route of up to 255 hops the header visits every hop in order and gives each its own outcome if and only if no later hop carries the terminal marker as its id |
| Sphinx.BlindSlotsOfSlots | crates/nbf-crypto/src/sphinx.rs:221-225 | multiplying every remaining slot by b turns slots carrying x_i times P into slots carrying x_i times P times b |
| Sphinx.RelayShrinks | crates/nbf-crypto/src/sphinx.rs:166-228 | on any bytes, what a hop forwards has the same tag, a count one less, and exactly the length that count calls for; the inner length check never fails |
| Sphinx.CrossesAtMost | crates/nbf-crypto/src/sphinx.rs:165-238 | a CREATE made of any bytes is accepted by at most as many hops in a row as its count byte says |
| Sphinx.ProcessedExactly | crates/nbf-crypto/src/sphinx.rs:165-238 | on any bytes a hop accepts if and only if version and length are right, the blob opens under the header key of the point it shares with the first slot, and the ciphertext inside decapsulates; keys, next hop, terminal marker and every slot of the new header are read off the open layer |
| Sphinx.SignedIsOwned | crates/nbf-crypto/src/identity.rs:88-103 | a node holds the secrets of the descriptor it signs |
| SphinxMachine.BuildHeader | crates/nbf-crypto/src/sphinx.rs:46-142 | the loops of build_header produce the header, keys and first address the specification describes, or its error |
| SphinxMachine.BlindingChain | crates/nbf-crypto/src/sphinx.rs:58-71 | the running product gives hop i the shared point of x_i times all earlier blinding factors, while the raw scalars are kept |
| SphinxMachine.EncapRoute | crates/nbf-crypto/src/sphinx.rs:74-80 | one encapsulation per hop, or the first failure |
| SphinxMachine.WriteInfo | crates/nbf-crypto/src/sphinx.rs:83-97 | writing the fields into a zeroed buffer gives the layer info, terminal marker included |
| SphinxMachine.WriteInfos | crates/nbf-crypto/src/sphinx.rs:83-97 | info i names hop i + 1, and the last info names nobody |
| SphinxMachine.SealLayers | crates/nbf-crypto/src/sphinx.rs:102-112 | sealing from the last hop outwards nests every later layer inside layer t, under hop t's key and count |
| SphinxMachine.LayOut | crates/nbf-crypto/src/sphinx.rs:117-124 | the bytes laid out are the header meant for hop 0, with raw scalars in the slots |
| SphinxMachine.TrafficKeys | crates/nbf-crypto/src/sphinx.rs:127-133 | the key pairs the origin keeps are the ones the hops derive |
| SphinxMachine.ProcessHeader | crates/nbf-crypto/src/sphinx.rs:165-238 | process_header is total on arbitrary bytes and computes the outcome or refusal that `Sphinx.ProcessedExactly` characterises |
| SphinxMachine.ReadLayer | crates/nbf-crypto/src/sphinx.rs:199-237 | reading an opened layer gives the specified outcome |
| SphinxMachine.AppendBlinded | crates/nbf-crypto/src/sphinx.rs:221-225 | the loop appends every slot multiplied by b, in order |
| SphinxMachine.BuiltHeaderPeels | crates/nbf-crypto/src/sphinx.rs:46-238 | walking a built header over the route's identities, hop i ends with the origin's fwd_keys[i] and bwd_keys[i], relays name the next hop, and only the last hop is terminal |
| Scalars.ScalarBytes | crates/nbf-crypto/src/sphinx.rs:122 | 32 bytes that reduce back to the same scalar |
| Scalars.MulAssoc | crates/nbf-crypto/src/sphinx.rs:63-69 | multiplication modulo the group order is associative |
| Crypto.Seal | crates/nbf-crypto/src/kdf.rs:63-73 | sealing adds a 16-byte tag and opens again under the same key and nonce |
| Crypto.Open | crates/nbf-crypto/src/kdf.rs:75-85 | what opens is 16 bytes shorter than its input, and the only failure is the AEAD's |
| Crypto.KemAgrees | crates/nbf-crypto/src/kem.rs:22-37 | the hop decapsulates the secret the origin encapsulated to its public key |
| Crypto.RelayNonceTexts | crates/nbf-crypto/src/kdf.rs:53-61 | RELAY nonces are hashes of different strings for different circuits, directions or numbers |
| Crypto.HdrNonceTexts | crates/nbf-crypto/src/kdf.rs:43-50 | so are header nonces for different circuits or counts, and a header layer never shares a string with a RELAY layer |
| Crypto.NonceReuseIsCollision | crates/nbf-crypto/src/kdf.rs:53-61 | one nonce for two numbers or directions of a circuit is a collision of the truncated hash |
| Octets.LeCanonical | crates/nbf-crypto/src/identity.rs:163-167 | little-endian decoding then encoding returns the same bytes |
| Identity.ParsedExactly | crates/nbf-crypto/src/identity.rs:122-189 | parsing yields d if and only if the bytes are d's record and d is authentic: signature verifies, node id is the hash prefix of the signing key |
| Identity.FromSignedBytes | crates/nbf-crypto/src/identity.rs:143-189 | stepping the offset through any bytes reads exactly the fields of the record, or fails in the specified way |
| Identity.SignedIsAuthentic | crates/nbf-crypto/src/identity.rs:88-120 | a descriptor signed by its owner for an IPv4 address is authentic |
| Identity.SignedExactly | crates/nbf-crypto/src/identity.rs:88-103 | signing publishes the hash prefix of the signing key, the node's public keys, the address, port and time given, and a signature over all of it, for IPv4 only |
| Identity.RefusedExactly | crates/nbf-crypto/src/identity.rs:143-178 | which of length, magic, signature and id makes a record be refused, and with which error |
| Onion.RouteOpens | crates/nbf-net/src/cell.rs:175-191 | n hops opening one layer each undo seal_onion, for any number of keys |
| Onion.RouteSeals | crates/nbf-net/src/cell.rs:194-229 | hop-by-hop sealing from the terminal back equals seal_onion_bwd, and the origin opens it |
| Onion.SealAll | crates/nbf-net/src/cell.rs:175-181 | n layers make the payload 16 n bytes longer |
| Onion.OpenAllShrinks | crates/nbf-net/src/cell.rs:218-229 | whatever opens under n keys was exactly 16 n bytes longer than what is inside |
| Onion.OpenAllExactly | crates/nbf-net/src/cell.rs:218-229 | opening gives a plaintext if and only if a layer opens under each key in turn and that is what is left |
| Onion.HopOpens | crates/nbf-net/src/relay.rs:67-70 | hop i opens the onion of hops i and later into the onion of the hops after it |
| Onion.HopSeals | crates/nbf-net/src/relay.rs:88-100 | hop i seals the reply of the hops after it into the reply of hops i and later |
| Onion.SealOnion | crates/nbf-net/src/cell.rs:175-181 | the loop wraps the last key innermost |
| Onion.SealOnionBwd | crates/nbf-net/src/cell.rs:209-215 | the loop wraps the last key innermost, under backward nonces |
| Onion.OpenOnionBwd | crates/nbf-net/src/cell.rs:218-229 | the loop opens key by key and stops at the first failure |
| Cells.Encode | crates/nbf-net/src/cell.rs:78-92 | a payload that fits gives exactly the 1280-byte wire form |
| Cells.DecodedExactly | crates/nbf-net/src/cell.rs:94-108 | decoding yields c exactly for the 1280-byte strings that agree with c's encoding up to the padding |
| Cells.WireIdentity | crates/nbf-net/src/cell.rs:78-108 | a cell that fits survives encode and decode |
| Cells.RefusedExactly | crates/nbf-net/src/cell.rs:94-109 | which of length, claimed length and command makes bytes be refused as a cell, and with which error |
| Cells.CmdFrom | crates/nbf-net/src/cell.rs:25-37 | a byte is accepted as a command exactly when it is that command's code |
| Cells.RCmdFrom | crates/nbf-net/src/cell.rs:46-56 | a byte is accepted as a RELAY command exactly when it is that command's code |
| Fragments.Fragment | crates/nbf-net/src/cell.rs:113-127 | the loop produces the specified fragments, count cut to 16 bits, and never slices out of bounds |
| Fragments.ParseFragment | crates/nbf-net/src/cell.rs:59-66 | parsing a fragment recovers its count, index and chunk |
| Fragments.FragTable.Reassemble | crates/nbf-net/src/cell.rs:139-170 | updating the table in place returns what the specification returns and leaves the table it describes, which `Fragments.FeedIsHistory` characterises |
| Fragments.ParseFragExactly | crates/nbf-net/src/cell.rs:59-66 | a fragment is any payload of at least four bytes, count and index first |
| Fragments.JoinSlots | crates/nbf-net/src/cell.rs:162-165 | draining the slots joins them in order, or gives up exactly when one is missing |
| Fragments.TableKept | crates/nbf-net/src/cell.rs:146-168 | any fragment (changed or zero total, index out of range) leaves every buffer with count equal to its filled slots and below its total, other circuits untouched, and never meets a missing slot |
| Fragments.FeedKept | crates/nbf-net/src/cell.rs:139-170 | so does any sequence of fragments |
| Fragments.FeedFragment | crates/nbf-net/src/cell.rs:156-168 | a fragment is kept, in place of leftovers of another fragment count, or, being the last missing one, returns exactly the payload and clears the entry |
| Fragments.AnyOrder | crates/nbf-net/src/cell.rs:139-170 | in any order, with repeats, other circuits and leftovers of another fragment count interleaved, the circuit is silent until its last missing index arrives and then returns exactly the payload |
| Fragments.OtherTotalRestarts | crates/nbf-net/src/cell.rs:151-155 | a fragment with another total is answered as if nothing had been held for its circuit |
| Fragments.FeedIsHistory | crates/nbf-net/src/cell.rs:139-171 | on any fragments whatever an answer comes exactly when all indices below the total have come since the circuit's last answer or change of total, and is the first chunks in order |
| Fragments.Untouched | crates/nbf-net/src/cell.rs:146-155 | a fragment of one circuit leaves every other circuit's buffer alone |
| Fragments.ReceivedExactly | crates/nbf-net/src/cell.rs:113-170 | fragment then reassemble is the identity if and only if the payload is at most 65535 * 1268 bytes |
| Wire.HeaderCrosses | crates/nbf-net/src/cell.rs:59-170 | fragment, encode, decode, parse and reassemble compose to the identity in any order, with repeats and foreign datagrams in between and leftovers of another fragment count in the table |
| Wire.SentInOrder | crates/nbf-net/src/node.rs:280-288 | a header sent in order arrives if and only if its fragment count fits 16 bits |
| Wire.HeadersAreSmall | crates/nbf-crypto/src/sphinx.rs:117-228 | every header an origin builds or a hop hands on is far below that bound |
| Wire.FragmentFits | crates/nbf-net/src/cell.rs:113-127 | every CREATE fragment fits a cell |
| Wire.AnswersFitExactly | crates/nbf-net/src/relay.rs:76-100 | a node answers a received cell with cells that fit, if and only if it is not a relay wrapping a backward payload that leaves no room for a tag |
| Wire.OversizedAnswer | crates/nbf-net/src/relay.rs:88-102 | a relay with a full backward cell does answer with one too large to encode |
| Engine.ParseRelayExactly | crates/nbf-net/src/relay.rs:12-22 | a RELAY payload parses to m exactly when it is m's wire form |
| Engine.UnknownIdIsDropped | crates/nbf-net/src/relay.rs:24-33 | CREATED, DESTROY and RELAY under an id the node does not hold change nothing and are not answered |
| NodeMachine.Node.constructor | crates/nbf-net/src/node.rs:121-140 | a spawned node has empty tables, circuit ids from 1 and sequence numbers from 64 |
| NodeMachine.Node.NewCid | crates/nbf-net/src/node.rs:187-189 | returns the counter and advances it, wrapping at 32 bits |
| NodeMachine.Node.HandleCell | crates/nbf-net/src/node.rs:191-201 | every handler's effect on the node and the cells it sends are those of its specification |
| NodeMachine.Node.HandleCreate | crates/nbf-net/src/node.rs:203-291 | collects a fragment and, on a complete valid header, becomes terminal and answers, or becomes a relay and sends the next CREATE |
| NodeMachine.Node.Extend | crates/nbf-net/src/node.rs:220-290 | installs the entry under the incoming id with fresh marks; a relay draws the next link's id first |
| NodeMachine.Node.HandleCreated | crates/nbf-net/src/node.rs:293-316 | wakes the waiter, or passes CREATED back from a relay entry, or does nothing |
| NodeMachine.Node.HandleDestroy | crates/nbf-net/src/node.rs:318-340 | removes the entry and tells the previous hop, if there was one |
| NodeMachine.Node.HandleRelay | crates/nbf-net/src/relay.rs:11-150 | parses, finds the entry by id and acts by its kind |
| NodeMachine.Node.AtOrigin | crates/nbf-net/src/relay.rs:36-50 | opens all backward layers and hands the data to a registered stream, or drops it; `Handlers.OriginExactly` says exactly when |
| NodeMachine.Node.AtRelay | crates/nbf-net/src/relay.rs:51-105 | forward: checks the number, opens one layer, records the number, passes on; backward: seals one layer; anything else is dropped |
| NodeMachine.Node.AtTerminal | crates/nbf-net/src/relay.rs:106-148 | checks sender and number, opens, records the number; answers ECHO, swallows DATA and DROP |
| NodeMachine.Node.BuildStart | crates/nbf-net/src/builder.rs:21-60 | refuses bad lengths, builds the header, draws the id, sends every fragment and waits |
| NodeMachine.Node.BuildFinish | crates/nbf-net/src/builder.rs:61-90 | woken, installs the origin entry and returns the handle; otherwise forgets the waiter and times out |
| NodeMachine.Node.RegisterStream | crates/nbf-net/src/node.rs:348-353 | adds the stream to an origin entry and otherwise does nothing |
| NodeMachine.Node.Send | crates/nbf-net/src/builder.rs:115-145 | draws a sequence number, wraps the message for the whole route and sends it, or fails without an origin entry |
| NodeMachine.Node.SendChecked | crates/nbf-net/src/builder.rs:95-113 | messages above MSG_MAX are refused before a number is drawn |
| NodeMachine.Node.Close | crates/nbf-net/src/builder.rs:147-168 | sends DESTROY to the first hop and removes the origin entry |
| Handlers.JunkIsIgnored | crates/nbf-net/src/relay.rs:12-22 | padding, CREATE payloads under four bytes and RELAY payloads that spell no message change nothing and are not answered |
| Handlers.OriginExactly | crates/nbf-net/src/relay.rs:35-50 | for any RELAY cell the origin's inbox grows if and only if the stream is registered and the payload opens under every backward key, by exactly the plaintext; otherwise nothing happens |
| Handlers.RelayExactly | crates/nbf-net/src/relay.rs:51-105 | a relay passes on a cell from prev that is new and opens, wraps a cell from next, and does nothing with any other cell, from neither neighbour in particular |
| Handlers.TerminalExactly | crates/nbf-net/src/relay.rs:106-148 | a terminal takes a cell from prev that is new and opens, answers ECHO with what was inside, and does nothing with any other cell |
| Handlers.RefusedCreate | crates/nbf-net/src/node.rs:203-219 | a CREATE that is incomplete or refused leaves no circuit and is not answered, and any other does something |
| Handlers.CreatedExactly | crates/nbf-net/src/node.rs:293-316 | CREATED wakes the waiter under its id, else passes to the previous hop of a relay entry, else does nothing |
| Handlers.DestroyExactly | crates/nbf-net/src/node.rs:318-340 | DESTROY removes the entry under its id and tells the previous neighbour of a hop, nobody at an origin |
| Handlers.BuiltExactly | crates/nbf-crypto/src/sphinx.rs:46-80 | a header is built if and only if the route has one to five hops and every encapsulation succeeds, with the error that says which failed |
| Handlers.BuildStartExactly | crates/nbf-net/src/builder.rs:21-60 | a build starts if and only if the route has one to five hops and all encapsulations succeed; otherwise nothing changes and nothing is sent |
| Handlers.LateCreatedWakesNobody | crates/nbf-net/src/builder.rs:61-67 | a build succeeds if and only if CREATED came in time; one that gave up leaves no waiter, so a later CREATED changes nothing |
| Handlers.CreatedInTime | crates/nbf-net/src/builder.rs:59-90 | a CREATED that finds the waiter lets the build finish with its keys installed |
| Handlers.SendExactly | crates/nbf-net/src/builder.rs:95-145 | a message over 1024 bytes is refused before a number is drawn; any other draws one, and is sent and reported sent if and only if the origin entry is still held |
| Handlers.CloseExactly | crates/nbf-net/src/builder.rs:147-168 | a close removes an origin entry and tells its first hop, and otherwise does nothing |
| Handlers.ClosedForGood | crates/nbf-net/src/builder.rs:115-168 | through a closed handle nothing is sent, and closing it again does nothing |
| Handlers.RegisterExactly | crates/nbf-net/src/node.rs:347-353 | a stream is registered on an origin entry, and nowhere else |
| Ids.CellChanges | crates/nbf-net/src/node.rs:191-345 | any cell whatever changes at most the entry under its own id: it is removed, keeps its links, or is put there with the sender's link and a newly drawn id |
| Ids.LifeKeepsOrder | crates/nbf-net/src/node.rs:187-270 | whatever a node goes through while its id counter does not wrap, hop entries lie under the id their predecessor sends, and the ids of outgoing links lie below the counter and are all different |
| Ids.ReachableInOrder | crates/nbf-net/src/node.rs:121-345 | so it is in every state a spawned node can reach under arbitrary cells and user operations, and the first part even after the counter has wrapped |
| Construction.FeedCreate | crates/nbf-net/src/node.rs:203-219 | whatever the order of arrival, a node processes the header exactly when its last missing fragment arrives |
| Construction.HopFinishes | crates/nbf-net/src/node.rs:216-290 | a hop given its header, whatever other circuits it holds, holds the planned entry under the id given and sends CREATED or the next hop's header |
| Construction.RelayPassesBack | crates/nbf-net/src/node.rs:293-316 | a relay forwards CREATED exactly when it arrives under the relay's own incoming id |
| Construction.StartedAssembles | crates/nbf-net/src/builder.rs:21-60 | starting a build puts every fragment of the header in flight to hop 0 and returns the origin's keys |
| Construction.CircuitConstruction | crates/nbf-net/src/node.rs:203-316 | over every delivery order and within a computed number of deliveries, every hop holds the planned entry under the id it was given, has kept every circuit under another id, and the origin is woken if and only if the ids agree |
| Traffic.OthersPass | crates/nbf-net/src/node.rs:191-200 | whatever cells of others do, and whatever their nodes do, a circuit's own cells in flight are the same, in the same order |
| Bystanders.PartHandles | crates/nbf-net/src/node.rs:203-316 | CREATE and CREATED read and change nothing of a node but what it holds under their own ids, and its id counter |
| Bystanders.PartElsewhere | crates/nbf-net/src/builder.rs:21-168 | any event of a node's life on other circuits that draws no id leaves that part as it is |
| Bystanders.RunAmong | crates/nbf-net/src/node.rs:191-316 | the circuit's share of any run among other circuits is a run of the circuit alone, on the schedule of its own deliveries |
| Bystanders.ConstructionAmong | crates/nbf-net/src/node.rs:203-316 | so with any other traffic at the same nodes and the circuit's cells arriving in any order, every hop ends up holding the planned entry, and the origin is woken if and only if the ids agree |
| Pipeline.ForwardKeeps | crates/nbf-net/src/relay.rs:62-87 | a hop taking a forward message does not change what the origin will finally receive |
| Pipeline.BackwardKeeps | crates/nbf-net/src/relay.rs:88-103 | nor does a hop taking a reply |
| Pipeline.PassedTwice | crates/nbf-net/src/relay.rs:64-66 | two sequence checks in a row are one check at the higher mark |
| Echo.CellsFit | crates/nbf-net/src/builder.rs:95-125 | on link i every cell of a message up to MSG_MAX carries exactly n - i layers and fits, in both directions |
| Echo.HonestCellsFit | crates/nbf-net/src/cell.rs:78-84 | in every state of every honest run, whatever is sent or delivered next emits only cells that fit |
| Echo.ForwardAtHop | crates/nbf-net/src/relay.rs:62-148 | hop i drops a number not above its mark, and otherwise records it and passes on the next layer, or answers ECHO at the end |
| Echo.BackwardAtRelay | crates/nbf-net/src/relay.rs:88-103 | a reply moves one hop back with one more layer |
| Echo.BackwardAtOrigin | crates/nbf-net/src/relay.rs:36-50 | the reply of all hops opens to the message, delivered if its stream is registered |
| Echo.StepTick | crates/nbf-net/src/relay.rs:11-150 | every delivery in a run is a step of the row of queues, keeps the final outcome and brings it nearer |
| Echo.EchoDelivery | crates/nbf-net/src/relay.rs:35-148 | for every interleaving of sends and FIFO deliveries the origin has a prefix of the replies owed, and exactly those once nothing is in flight |
| Echo.TicksDrain | crates/nbf-net/src/relay.rs:11-150 | deliveries alone empty the network within a computed number of steps |
| Echo.AllPassExactly | crates/nbf-net/src/builder.rs:115-119 | every send passes the hops' checks if and only if the counter is above their marks and does not wrap |
| Crowd.InboxGrows | crates/nbf-net/src/relay.rs:35-50 | handling a cell depends on nothing the streams have received before and adds at most one delivery, on the cell's own circuit |
| Crowd.OwnArrives | crates/nbf-net/src/relay.rs:11-150 | a cell of the circuit arriving in the crowded network changes the circuit's share of it exactly as it would change the circuit alone |
| Crowd.ForeignEvent | crates/nbf-net/src/builder.rs:21-168 | any cell or user operation on another circuit, or the start of a new one, leaves the circuit's entry and what it has received untouched |
| Crowd.DrawsPass | crates/nbf-net/src/builder.rs:115-119 | numbers the origin draws for other circuits leave gaps that the hops' checks let pass, as long as the counter does not wrap |
| Crowd.CrowdedEcho | crates/nbf-net/src/relay.rs:11-150 | with any traffic, construction and teardown of other circuits at the same nodes, the origin's streams receive a prefix of the replies the circuit's sends are owed, and exactly those once none of its cells is in flight |
| EndToEnd.TakenUpEstablished | crates/nbf-net/src/builder.rs:67-90 | a settled construction with agreeing ids, taken up by the origin, is an established circuit with marks at zero |
| EndToEnd.FreshIsPossible | crates/nbf-net/src/node.rs:121-140 | freshly spawned nodes meet the hypotheses of construction, their ids agree, and their build succeeds on every schedule |
| EndToEnd.DisagreeingTimesOut | crates/nbf-net/src/builder.rs:58-66 | if the first hop has drawn one id before, the ids disagree, and on every schedule the build of that route times out |
| EndToEnd.BuiltCircuitsEcho | crates/nbf-net/src/builder.rs:21-145 | the build succeeds if and only if the ids agree, and then every ECHO comes back unchanged and in order and DATA and DROP yield nothing |
| EndToEnd.CrowdedEndToEnd | crates/nbf-net/src/builder.rs:21-145 | in a network full of other circuits' traffic a build succeeds if and only if the ids agree, and then the streams get exactly the echoes of the circuit's own sends while its nodes go on building, using and losing other circuits |
| EndToEnd.BuiltCircuitsAreReplaySafe | crates/nbf-net/src/relay.rs:62-125 | replay safety holds of every circuit of any length that construction leaves behind among nodes whose id counters have not wrapped, whatever order its CREATE fragments arrived in and whatever other circuits its nodes hold, build and lose |
| EndToEnd.OrderlyUnshared | crates/nbf-net/src/node.rs:187-270 | at such nodes no circuit held before shares a link of the new circuit |
| Duplicates.OnlyEchoesArrive | crates/nbf-net/src/relay.rs:35-148 | over links that lose, duplicate and reorder, the origin's streams receive nothing but, unchanged, messages it sent as ECHO |
| Duplicates.RepliesArriveOnce | crates/nbf-net/src/relay.rs:35-148 | if no cell is copied on its way back, then whatever else is lost, copied and reordered, no sequence number and so no message is delivered more often than it was sent |
| Duplicates.WalkHome | crates/nbf-net/src/relay.rs:88-103 | from any link, with anything else in flight, a reply can be brought home by deliveries alone that leave all else as it was |
| Duplicates.CopiedReplyArrivesTwice | crates/nbf-net/src/relay.rs:36-50 | after any run, a cell on its way back that is copied, on any link and with anything else in flight, has a continuation of deliveries that hands its message to the stream twice |
| Replay.MonotonicCheck.Check | crates/nbf-crypto/src/replay.rs:16-22 | accepts exactly numbers above the last accepted one and remembers them |
| Replay.RefinesCheck | crates/nbf-net/src/relay.rs:62-75 | an entry accepts exactly when the cell is from the previous hop, its layer opens and the check passes, and its mark moves exactly as the check's would |
| Replay.CalmKeepsShape | crates/nbf-net/src/node.rs:191-345 | a cell that completes no accepted CREATE and destroys nothing leaves every entry's keys and links, and every other entry's mark, as they are |
| Replay.SendsVouched | crates/nbf-net/src/relay.rs:76-87 | a cell sent on towards the next hop carries a number just accepted |
| Replay.AcceptedIncrease | crates/nbf-net/src/relay.rs:62-125 | over any schedule and any cells, forged ones included, what one entry accepts in one life strictly increases |
| Replay.SourceKept | crates/nbf-net/src/node.rs:203-340 | whatever entries a node installs and removes, no other circuit comes to share a link unless a CREATE completes that comes from the far end under the link's id or draws that id |
| Replay.ReplaySafety | crates/nbf-net/src/relay.rs:62-125 | over every schedule of cells of any kind with loss, duplication, reordering and invention off the links, with any other circuits built and lost at the same nodes, during one life of the circuit's own entries, accepted numbers strictly increase at every hop of a circuit of any length and are a subsequence of those of every hop before it |
| Lives.MarkFallsExactly | crates/nbf-net/src/node.rs:203-340 | over arbitrary cells an entry goes if and only if a DESTROY for it is handled, and its mark falls if and only if a CREATE completes under its id with an accepted header |
| Lives.TerminalSealsOnce | crates/nbf-net/src/relay.rs:114-142 | until a CREATE completes under its id the numbers under which a terminal seals replies strictly increase, against forged cells of every kind, DESTROY included |
| Lives.SealsFreshNonces | crates/nbf-net/src/relay.rs:114-142 | and no two of its replies have a nonce from one string, nor from the string of a cell it opens or of a header layer |
| Lives.RepeatedCreateReseals | crates/nbf-net/src/node.rs:220-236 | after one they do not: for every header and message, ECHO, the entry's own CREATE again, ECHO again gives the same sealed reply twice |
| Teardown.DestroyAnswers | crates/nbf-net/src/node.rs:318-340 | a handled DESTROY sends at most one more, and only after removing an entry |
| Teardown.DestroyDiesOut | crates/nbf-net/src/node.rs:318-340 | from any network state a run of DESTROY cells is over after at most 2 * entries + cells in flight deliveries, in any order |
| Teardown.DestroyTravelsHome | crates/nbf-net/src/node.rs:318-340 | a DESTROY reaching position i clears positions i down to 0 and nothing else |
| Teardown.CloseReachesOneHop | crates/nbf-net/src/builder.rs:147-168 | after a close exactly the origin and its first hop have lost the circuit; later hops keep it |
| Metric.NearerIsRank | crates/nbf-dht/src/kademlia.rs:133-140 | comparing XOR distances as byte vectors is a strict total order on ids, one id per distance |
| Metric.DistCancels | crates/nbf-dht/src/kademlia.rs:133-135 | for a fixed key different ids have different distances |
| Metric.DistUndone | crates/nbf-dht/src/kademlia.rs:133-135 | distance is symmetric, and exactly one id lies at a given distance from a key |
| Metric.LexIsNumeric | crates/nbf-dht/src/kademlia.rs:132-135 | byte-wise comparison of equal-length distances is comparison of the numbers they spell |
| Metric.SelfIsNearest | crates/nbf-dht/src/kademlia.rs:133-135 | nothing is nearer to a node than itself |
| Table.MergeKeepsNearest | crates/nbf-dht/src/kademlia.rs:145-157 | a merge keeps exactly the 64 nearest ids of table and batch, sorted, unique, with the node's own contact first |
| Table.MergeConfluent | crates/nbf-dht/src/kademlia.rs:145-157 | A then B, B then A and both at once give the same ids in the same order |
| Table.MergeTwiceIsOnce | crates/nbf-dht/src/kademlia.rs:145-157 | merging two batches one after the other gives the very table that merging them at once gives |
| Table.MergeConfluentTables | crates/nbf-dht/src/kademlia.rs:145-157 | the two orders of two batches give the same table if and only if the batches announce the same contact first for every new id that both bring and that is kept |
| Table.MergeOrderMatters | crates/nbf-dht/src/kademlia.rs:151-153 | told of two addresses for one id, a fresh node keeps whichever it hears first |
| Table.MergedFirst | crates/nbf-dht/src/kademlia.rs:147-154 | every contact a merge keeps is the first one heard for its id |
| Table.FirstHeardStays | crates/nbf-dht/src/kademlia.rs:147-154 | a contact in the table is never replaced by another one announced for its id |
| Table.NearestOfPart | crates/nbf-dht/src/kademlia.rs:155-156 | cutting to the k nearest early loses nothing |
| Table.ClosestIsNearest | crates/nbf-dht/src/kademlia.rs:137-143 | closest returns min(k, table size) contacts in order, every omitted one strictly farther |
| Lookup.RoundShrinks | crates/nbf-dht/src/kademlia.rs:203-232 | every round takes at least one id out of the finite set of ids not asked yet |
| Lookup.LookupConverges | crates/nbf-dht/src/kademlia.rs:196-244 | for every responder behaviour: nobody asked twice, table equal to the 64 nearest of all heard, without a value all K finally closest asked and silent, with a value it is the last answer and the first one |
| Lookup.RoundAsksAll | crates/nbf-dht/src/kademlia.rs:204-213 | a full round leaves nobody it knew to be close unasked, since K <= ALPHA |
| Lookup.RoundNearestFirst | crates/nbf-dht/src/kademlia.rs:204-221 | a round asks the nearest contacts not asked yet, nearest first |
| Lookup.NearestVoiceWins | crates/nbf-dht/src/kademlia.rs:204-229 | if everyone nearer to the key is silent, a lookup returns what a close contact says, whatever farther ones say |
| Lookup.LookupOwnOnly | crates/nbf-dht/src/kademlia.rs:201-217 | under its own id a node asks nobody but itself |
| Lookup.LoneVoice | crates/nbf-dht/src/kademlia.rs:212-229 | if just one of the contacts closest at the start answers with a value, the lookup returns that value |
| Rpc.RpcEncode | crates/nbf-dht/src/rpc.rs:95-127 | appending contact by contact gives the specified datagram |
| Rpc.RpcDecode | crates/nbf-dht/src/rpc.rs:130-208 | decodes any bytes as specified, without an index out of bounds |
| Rpc.DecodeFound | crates/nbf-dht/src/rpc.rs:168-207 | the offset loop reads exactly the counted contacts, the flag and the value |
| Rpc.DecodedExactly | crates/nbf-dht/src/rpc.rs:95-208 | decoding yields m if and only if m can be carried and the bytes spell it, up to nonzero flags and trailing bytes of FIND and FOUND |
| Rpc.RoundTrip | crates/nbf-dht/src/rpc.rs:95-208 | an encoded message decodes to itself if and only if it has at most 65535 contacts and its descriptor is authentic |
| Rpc.RefusedExactly | crates/nbf-dht/src/rpc.rs:130-208 | why a datagram is refused: its length, its magic or type, or a record in it that does not verify |
| Rpc.ContactIsReachedAt | crates/nbf-dht/src/rpc.rs:16-33 | a contact is reached at its descriptor's IPv4 address, or the loopback address, and its DHT port |
| Dht.Kademlia.ClosestTo | crates/nbf-dht/src/kademlia.rs:137-143 | in a well-formed table returns min(k, table size) of its contacts, nearest first, and leaves out only strictly farther ones |
| Dht.Kademlia.TryMerge | crates/nbf-dht/src/kademlia.rs:145-157 | the push loop, sort and cut update the table as specified |
| Dht.Kademlia.Handle | crates/nbf-dht/src/kademlia.rs:69-105 | any datagram changes the node and is answered as specified; `Agreement.OnlyStoreChanges`, `StoreTeaches`, `AnswerIsOwn` and `PingIsAnswered` say how |
| Dht.Kademlia.AskRound | crates/nbf-dht/src/kademlia.rs:212-232 | asks the batch in order, merging every reply, until a value turns up, as specified |
| Dht.Kademlia.Lookup | crates/nbf-dht/src/kademlia.rs:196-244 | the nested loops end and do exactly what the specified search does, against any responders |
| Agreement.SpawnOk | crates/nbf-net/src/node.rs:102-146 | a node starts with an authentic record of itself stored under its own id |
| Agreement.DatagramKeeps | crates/nbf-dht/src/kademlia.rs:69-105 | every datagram whatever keeps the store authentic and keyed by node id, and the table well formed |
| Agreement.AnswerIsOwn | crates/nbf-dht/src/kademlia.rs:84-100 | a FIND that is encoded, handled, answered and decoded gives the requester the node's closest contacts and the value stored under the key |
| Agreement.StoredIsFound | crates/nbf-dht/src/kademlia.rs:80-100 | a descriptor stored by datagram is what the node answers for its id, and answers for other keys keep their values |
| Agreement.StoreTeaches | crates/nbf-dht/src/kademlia.rs:80-83 | after a STORE of an authentic descriptor the table holds the 64 nearest of its ids and the descriptor's, under the address and port the descriptor gives if it is new |
| Agreement.PingIsAnswered | crates/nbf-dht/src/kademlia.rs:75-79 | a PING is answered with a PONG of the same number and changes nothing |
| Agreement.OnlyStoreChanges | crates/nbf-dht/src/kademlia.rs:69-105 | on any bytes, only a STORE of an authentic descriptor changes a node and only a PING or FIND is answered |
| Agreement.LookupAgrees | crates/nbf-dht/src/kademlia.rs:225-228 | through honest responders a lookup returns an authentic descriptor of the key or nothing |
| Agreement.Router.LookupRoute | crates/nbf-net/src/node.rs:381-396 | cache, then store, then network, caching what is found, as `Agreement.RouteExactly` characterises |
| Agreement.RouteExactly | crates/nbf-net/src/node.rs:381-396 | a cached descriptor is returned as it is, a stored one is returned and cached whoever answers, else the result is what the lookup found or a timeout; what was found is found again |
| Agreement.RouteAgrees | crates/nbf-net/src/node.rs:381-396 | through honest responders only the target's authentic descriptor is returned or cached, and no other cache entry changes |
| Agreement.RightExactlyWhenAnswersAre | crates/nbf-dht/src/kademlia.rs:196-244 | for any node whose own answer carries no value, lookups of a key are right from every table if and only if no contact of another node answers with a descriptor that is not the key's |
| Agreement.ForeignAnswerIsCached | crates/nbf-net/src/node.rs:389-393 | if one close contact answers with a descriptor of its choosing and every other close contact, the node itself included, has none, that descriptor is returned and stays cached under the target's key |
| Agreement.HonestIsSilent | crates/nbf-dht/src/kademlia.rs:84-100 | a good node without the target's descriptor answers FIND with no value |

## Left out

- Construction.CircuitConstruction: delivery is reordered at will but none of the build's own cells is lost or repeated; a lost fragment only leaves the origin waiting until its timeout.
- Bystanders.ConstructionAmong: the route's nodes draw no ids for other circuits during the build, since the ids that must agree are named by the counters at its start.
- Echo.EchoDelivery: links are FIFO; over lossy, duplicating or reordering links `Duplicates.RepliesArriveOnce`, `Duplicates.OnlyEchoesArrive` and `Replay.ReplaySafety` say what remains true.
- Crowd.CrowdedEcho: the circuit's own cells arrive in order on each link and are not lost, and nobody else uses its id towards its nodes; a colliding id overwrites or destroys the circuit's entries.
- Replay.ReplaySafety: one life of the circuit's own entries, as defined by `Replay.Calm`; across lives `Lives.RepeatedCreateReseals` shows it does not hold.
- Duplicates.OnlyEchoesArrive: no cells are invented; against invented ones authenticity rests on the AEAD, whose unforgeability is not one of the laws assumed here.
- NodeMachine.Node.HandleCreate: the route lookup of crates/nbf-net/src/node.rs:273-277 is not run here, because its result only selects the link key; `Agreement.Router.LookupRoute` models it on its own.
- NodeMachine.Node.BuildStart: takes the resolved descriptors; resolving ids is `Agreement.Router.LookupRoute`.
- NodeMachine.Node.RegisterStream: a stream is a set member and its deliveries are the origin's inbox; channel capacity and replaced receivers are not modelled.
- Lookup.LookupConverges: an RPC is one answer or none per call; the table is changed only by the lookup itself.
- Link encryption (Noise sessions, UDP sockets, the clear-cell fallback, polling): I/O and an external library; a link is delivery of a cell tagged with its sender's address.
- UDP in the DHT: sockets, matching replies by address, timeouts, the 4096-byte receive buffer, `bootstrap` and `store_self`.
- `dht_addr`, `route_peers`, `pick_origin` and the padding payload: single expressions with nothing to prove beyond their text.
- Cover traffic, statistics counters, configuration and the command-line program.
- Expiry of descriptors: the code declares a lifetime but does not check it.
- Flow information of IPv6 addresses; the wire formats carry IPv4 only.
- Anonymity, secrecy and unlinkability: not expressible over these functions.
- Interleavings inside one handler, and circuit ids that collide between different predecessors.
