# DNS over Minecraft: verified models

The repository tunnels DNS queries through Minecraft status pings. A query travels in the
server address of a handshake, whole or in fragments, and the answer comes back in the favicon
of a status response. This project models the codecs, protocols and shared objects on that way
and proves what they promise, for all inputs, runs and interleavings.

`dafny verify dfyconfig.toml` checks everything.

| modules | what they are about |
|---|---|
| `Bytes`, `Uvarint`, `WireNames`, `Text`, `Base32` | byte strings, varints, wire names (RFC 1035), Go's string helpers, base32 (section 6 of RFC 4648) |
| `CompactSpec`, `CompactRoundTrip`, `CompactOwners`, `CompactCodec` | the owner-dropping response codec: encoder and decoder, each with its own name table |
| `QueryCodec`, `TldDictionary`, `Framing`, `Addressing`, `Transport`, `Tunnel` | the way of a query: encoding, address, fragments, handshake frame, routing, decoding |
| `FragmentProtocol`, `FragmentSafety`, `FragmentDelivery`, `FragmentAssembler` | assembly of fragments as interleaved critical sections, and the objects that perform them |
| `RateLimiter` | per-IP token buckets and their cleanup |
| `CacheModel`, `CacheSafety`, `CacheRefinement`, `CacheHistory`, `CacheAgeing`, `CacheRecency`, `Cache` | the LRU/TTL cache: locked sections, refinement of a recency list, histories of Gets and Sets |
| `ConnPoolModel`, `ConnPool`, `UpstreamPool` | connection slots under interleaved exchanges; the order in which upstreams are tried |
| `Records`, `Resolver`, `ResolverReuse`, `ResolverObject` | the server's own records, and resolution from cache, records and upstreams |
| `Client` | round robin and failover between servers |

Where the source changes state, the model is a class or a loop proved equal to a specification
function (`Encoder.EncodeName` and `TokenFor`/`Learn`, `Cache.Store.Set` and `SetSection`), and
the properties are proved about those functions. Concurrent objects are transition systems whose
steps are the source's critical sections and channel operations; a property holds after every
finite sequence of enabled steps. Clocks are parameters and only required not to run backwards
where a property needs it. Response times and tokens are reals.

## Where the code differs from what one might expect

- The compact encoder seeds its name table with the first question only
  (internal/dnscodec/codec.go:340-343), the decoder with every question literal
  (internal/dnscodec/codec.go:478-484). `SurvivesExactly` gives the exact condition on the
  owner names under which a message survives, `OneQuestionRoundTrip` covers the messages the program sends, and
  `TwoQuestionsLoseAnOwner` is a message that does not survive.
- `unpackFlags` keeps four rcode bits (internal/dnscodec/codec.go:695); so does the plain header
  (`HeaderWord`), hence a larger rcode is the same loss in both and not a precondition.
- Fragment addresses fit 255 bytes exactly from a budget of 40 on, not 41 (`FragmentsFit`); below
  that the minimum piece length of 40 overrides the budget (internal/mc/client.go:66-69). Longer
  addresses still get through, up to what the server's readers accept.
- A query that does not fit one address but makes a single piece is lost: the fragment has index
  and total 1, which isFragmented refuses (internal/mc/server.go:377), and the server decodes it as a
  whole query. `TunnelDelivers` is exact, `LoneFragmentLost` says what happens, and
  `LongSuffixLoses` and `LosingInput` name a configuration.
- A client without a passphrase is always denied by a server that has one; a client with one is
  misread by a server that has none (internal/mc/server.go:176-184; `RouteOfWritten`).
- The encoder counts and sends the characters of a name as it is written, escapes included
  (internal/dnscodec/codec.go:90-102), so a name that is short on the wire can be long in an address.
- `packFlags` keeps six header bits (internal/dnscodec/codec.go:650-671): opcode and the Z bit of a
  message are lost; `FlagsRoundTrip` and `PackedMessageRoundTrip` are exact, `OpcodeLost` an example.
- A client without a suffix is served by a server that has one, unless its text happens to end like
  that suffix (internal/dnscodec/codec.go:291-295); `StripsSuffix`, `OverstrippedSingle`,
  `OverstrippedFragment`.
- The resolver means to drop the DO bit and to ask again with a larger buffer, but SetEdns0 of the
  DNS library appends an OPT record and removes none (internal/resolver/resolver.go:85-92). So a
  client's DO bit does go upstream, beside a record without it, and every retry carries two or more
  OPT records, which section 6.1.1 of RFC 6891 forbids; `FirstTry`, `RetryAsksTwice`,
  `DoGoesUpstream`. Queries out of the tunnel carry no DO bit; `TunnelledWithoutDo`.
- A cached answer keeps the OPT record it was stored with, so a client that sent none can get one in
  spite of internal/resolver/resolver.go:101-103; `PlainGetsOptExactly`, `PlainAfterEdns`.
- A just-stored cache entry can be evicted by its own Set when the clock passes its expiry between
  the two clock readings (internal/cache/cache.go:117, 142); `JustStoredSurvives` is exact, `JustStoredLost` an example.
- An answer whose smallest TTL is zero is kept for the negative TTL (internal/cache/cache.go:112-114);
  `NeverHitLateExactly` is exact over all histories.
- A cached TTL is decremented again by the whole time since storage on every hit
  (internal/cache/cache.go:67-78); `HitsAddUp` and `ReturnedTtl` say what a client then sees,
  `AgedTooFast` gives numbers.
- A cleanup timeout shorter than one second can be noticed by callers; `CleanupUnseenExactly`.
- README.md:125 of the repository calls the lowest priority number first; code and tests try the
  highest first (internal/upstream/upstream.go:43-45), and the model follows the code.
- A wildcard record also covers names that end in its suffix without a label boundary
  (internal/records/records.go:96); `WildcardOverreaches`, `WildcardCrossesLabels`.
- Types and classes that the DNS library has no name for share one cache key
  (internal/cache/cache.go:49); `CacheKeyExact`, `UnnamedTypesShare`.

## Model

| member | source | states |
|---|---|---|
| CompactRoundTrip.PackedMessageRoundTrip | internal/dnscodec/codec.go:335-571 | for every message with wire names and 16-bit counts and RDATA lengths, decoding the packed message rebuilds its plain uncompressed wire byte for byte if and only if every table reference the encoder makes means the same name on the decoder's side, and opcode and Z bit are clear; but for these two, if and only if the former |
| CompactOwners.SurvivesExactly | internal/dnscodec/codec.go:340-366 | the same condition on the owner names alone: at most one question, or every owner that returns after another one stands among the questions where it stands among the new owners; and opcode and Z bit are clear |
| CompactOwners.AgreeFrom | internal/dnscodec/codec.go:346-366 | from any point of the records on, the encoder's references agree exactly under that condition |
| CompactOwners.TokenIs | internal/dnscodec/codec.go:346-364 | a table reference is written exactly for a returning owner, with its place among the new owners, and a literal exactly for a new one |
| CompactRoundTrip.OneQuestionRoundTrip | internal/dnscodec/codec.go:335-571 | with at most one question nothing but opcode and Z bit is lost, whatever the records of the three sections; and nothing at all exactly if these are clear |
| CompactRoundTrip.OpcodeLost | internal/dnscodec/codec.go:649-671 | a response with opcode 4 that does not survive |
| CompactOwners.ReturningOwnerLost | internal/dnscodec/codec.go:340-343 | two questions and records owned by x, y, x do not survive, for any such names |
| CompactOwners.TwoQuestionsLoseAnOwner | internal/dnscodec/codec.go:340-343 | the same for four concrete names |
| CompactRoundTrip.RecordsRoundTrip | internal/dnscodec/codec.go:391-413 | from dictionaries in step, a whole run of records is rebuilt exactly when its table references agree |
| CompactRoundTrip.OwnerStep | internal/dnscodec/codec.go:453-488 | the token written for an owner is always in range for the decoder, which reads the same owner exactly if the reference agrees, and leaves the unread bytes alone |
| CompactRoundTrip.LearnStep | internal/dnscodec/codec.go:346-366 | after every record both sides again hold the same question name, the same previous owner, and tables that differ only in their seeds |
| CompactRoundTrip.QuestionsRoundTrip | internal/dnscodec/codec.go:498-517 | questions are rebuilt and every name enters the decoder's table |
| CompactRoundTrip.TailRoundTrip | internal/dnscodec/codec.go:526-556 | type, class, TTL and RDATA of a record survive as fixed-width fields |
| CompactRoundTrip.HeaderRoundTrip | internal/dnscodec/codec.go:425-447 | magic, rcode, flags and the four counts survive |
| CompactRoundTrip.FlagsRoundTrip | internal/dnscodec/codec.go:650-696 | six flag bits and the low four rcode bits come out in their places of the DNS header word, for all flags and rcodes; it is the message's own word exactly if opcode and Z bit are clear |
| CompactRoundTrip.UnpackBound | internal/dnscodec/codec.go:424-571 | for any payload that decodes, section counts are bounded by the bytes read and the rebuilt wire has at most 12 + 87 * (payload - 7) bytes |
| CompactRoundTrip.QuestionsBound | internal/dnscodec/codec.go:498-517 | each question read consumes payload, and the growth per byte is bounded, however large the count field |
| CompactRoundTrip.RecordsBound | internal/dnscodec/codec.go:519-559 | n records take at least 5n payload bytes and rebuild at most 53 bytes per byte |
| CompactCodec.PackSections | internal/dnscodec/codec.go:414-418 | writing three sections in a row is one run over all records with one dictionary |
| CompactCodec.Encoder.constructor | internal/dnscodec/codec.go:336-344 | the encoder starts from the first question's name alone |
| CompactCodec.Encoder.EncodeName | internal/dnscodec/codec.go:346-366 | writes the first applicable of the four references, and learns a name exactly when it is written out |
| CompactCodec.Encoder.EncodeSection | internal/dnscodec/codec.go:391-413 | appends the section and carries table and previous owner on to the next |
| CompactCodec.PackCompactResponse | internal/dnscodec/codec.go:335-420 | the buffer written step by step is the packed message the round trips are about |
| CompactCodec.Decoder.ReadWireName | internal/dnscodec/codec.go:608-635 | reads exactly the name at the front of the stream, or fails for the reason the source gives |
| CompactCodec.Decoder.ReadName | internal/dnscodec/codec.go:453-488 | resolves a token against qname, previous owner and table, with an error for each unusable token |
| CompactCodec.Decoder.ReadQuestions | internal/dnscodec/codec.go:498-517 | rebuilds all questions or fails; terminates for every 64-bit count |
| CompactCodec.Decoder.ReadSection | internal/dnscodec/codec.go:519-559 | rebuilds one section, leaving the rest to the sections after it; terminates for every 64-bit count |
| CompactCodec.UnpackCompactResponse | internal/dnscodec/codec.go:424-565 | the decoder's loop gives the specified wire or error for every payload |
| WireNames.TakeWireName | internal/dnscodec/codec.go:606-635 | a wire name is read back whole, whatever bytes follow |
| WireNames.TakenIsWireName | internal/dnscodec/codec.go:606-635 | whatever is read as a name is a wire name of at most 255 bytes |
| WireNames.WireNamesPrefixFree | internal/dnscodec/codec.go:606-635 | no wire name is a proper prefix of another, so literals delimit themselves |
| Uvarint.ReadPut | internal/dnscodec/codec.go:637-641 | every 64-bit value is read back from its varint with the rest of the stream untouched |
| Uvarint.PutLength | internal/dnscodec/codec.go:637-641 | a value below 128^n takes at most n bytes |
| QueryCodec.QueryRoundTrip | internal/dnscodec/codec.go:82-238 | for every query the encoder accepts, any text that differs from its output only in dots and letter case decodes to the query normalised |
| QueryCodec.WireRoundTrip | internal/dnscodec/codec.go:106-237 | the same for the bytes under the base32 text |
| QueryCodec.NameRoundTrip | internal/dnscodec/codec.go:103-112 | name part and TLD code together give the name back, with or without a code |
| QueryCodec.ParseLabelsWire | internal/dnscodec/codec.go:240-282 | packed labels are unpacked to the same labels |
| QueryCodec.TldCodeInjective | internal/dnscodec/codec.go:49-77 | two TLDs never share a code |
| QueryCodec.EdnsSizeBounds | internal/dnscodec/codec.go:129-141 | the size the server sees is at most max(512, size) and less than 256 below it |
| QueryCodec.EncodingInjective | internal/dnscodec/codec.go:82-127 | equal encodings mean equal queries up to normalisation |
| QueryCodec.EncodedTextShape | internal/dnscodec/codec.go:125-126 | the encoded text is lower case, free of dots, and ceil(8n/5) characters long |
| QueryCodec.EncodeQueryText | internal/dnscodec/codec.go:82-127 | the encoder as written computes the specified text or refusal |
| QueryCodec.DecodeQueryText | internal/dnscodec/codec.go:145-238 | the decoder as written gives the specified query or error for any text and suffix |
| QueryCodec.PackLabels | internal/dnscodec/codec.go:240-251 | the buffer holds each label behind its length, and a terminator |
| QueryCodec.UnpackLabels | internal/dnscodec/codec.go:253-282 | the position-advancing loop accepts exactly complete label wires and joins their labels |
| QueryCodec.BuildTldTables | internal/dnscodec/codec.go:69-77 | the start-up loop fills two maps with what the list says; a repeated entry would keep its last code |
| QueryCodec.TablesInverse | internal/dnscodec/codec.go:64-77 | label to code to label is always the identity; code to label to code is, exactly if no entry of the list is repeated |
| TldDictionary.EntriesDistinct | internal/dnscodec/codec.go:49-62 | the 99 entries of the list differ from each other |
| TldDictionary.OwnCodes | internal/dnscodec/codec.go:49-77 | the i-th entry is sent as code i + 1, which is decoded to it |
| QueryCodec.BeginsWithSeven | internal/dnscodec/codec.go:152-180 | only a text that begins with the digit seven can decode, since both magic bytes begin with five set bits |
| Base32.EncodeDecode | internal/dnscodec/codec.go:18 | unpadded base32 decodes to what was encoded |
| Base32.EncodeLength | internal/dnscodec/codec.go:18 | n bytes take ceil(8n/5) characters |
| Base32.FirstDigit | internal/dnscodec/codec.go:154 | the first character decides the upper five bits of the first byte |
| Framing.VarIntRoundTrip | internal/mc/varint.go:10-37 | any integer comes back modulo 2^32 from at most five bytes, the rest of the stream untouched |
| Framing.VarIntExact | internal/mc/varint.go:10-37 | it comes back as itself exactly for 0..2^32-1 |
| Framing.StringRoundTrip | internal/mc/varint.go:39-58 | a string is read back exactly if it has at most 1020 bytes, and refused otherwise |
| Framing.UShortRoundTrip | internal/mc/varint.go:60-72 | a port is read back |
| Framing.FrameRoundTrip | internal/mc/frame.go:19-47 | a frame is read back exactly if its body is within the limit, and refused otherwise |
| Framing.FramesRoundTrip | internal/mc/frame.go:19-47 | any concatenation of frames within the limit reads back as the same sequence |
| Framing.HandshakeRoundTrip | internal/mc/frame.go:57-90 | a handshake is parsed back exactly if its address has at most 1020 bytes, and refused otherwise |
| Framing.Reader.ReadFull | internal/mc/varint.go:19-21 | the bytes asked for, or an error with the stream used up |
| Framing.Reader.ReadVarInt | internal/mc/varint.go:10-31 | the shifting loop consumes exactly one varint and returns its value, or fails |
| Framing.Reader.ReadString | internal/mc/varint.go:39-52 | consumes exactly one string within the bound |
| Framing.Reader.ReadFrameLimit | internal/mc/frame.go:19-38 | consumes exactly one frame and splits it into id and data, or fails |
| Framing.ParseHandshakePayload | internal/mc/frame.go:57-81 | the reads in order give the specified handshake or the first error |
| Addressing.StripsSuffix | internal/dnscodec/codec.go:285-297 | the server recovers the text if and only if its suffix is the client's up to letter case and a dot in front of either, or the client sent none and the server's does not happen to end the text |
| Addressing.SuffixForms | internal/mc/client.go:57-60 | the two places where the client appends its suffix agree |
| Addressing.ExtractsPassphrase | internal/mc/server.go:265-279 | the text behind a written prefix is recovered exactly when the passphrases are equal |
| Addressing.RouteOfWritten | internal/mc/server.go:175-189 | from any address the client writes, with a suffix the server knows, or with none while the text does not end like the server's, a server with a passphrase recovers the text if the client has the same one and denies it otherwise, also if the client has none; a server without one takes the prefix for part of the text |
| Addressing.PrefixedRoute | internal/mc/server.go:185-189 | a text behind a passphrase prefix is never dispatched as a fragment |
| Addressing.SingleRoute | internal/mc/server.go:175-189 | a whole query is never dispatched as a fragment, whatever the two passphrases |
| Addressing.FragmentRoute | internal/mc/server.go:175-189 | a written fragment is taken for one, with its nonce, index, total and piece, exactly when index and total are plausible and the passphrases agree; otherwise it is denied or taken for a whole query |
| Addressing.OverstrippedSingle | internal/dnscodec/codec.go:291-295 | a text sent without suffix that does end like the server's is cut, and a whole query is then never taken for what it is |
| Addressing.OverstrippedFragment | internal/dnscodec/codec.go:291-295 | nor is a fragment: nonce or piece differ |
| Addressing.FragmentParts | internal/mc/server.go:381-383 | splitting the address yields marker, nonce and the chunks, which join to the piece |
| Addressing.PortRoundTrip | internal/mc/client.go:79 | index and total come back out of the 16-bit port |
| Addressing.PiecesShape | internal/mc/client.go:97-107 | the pieces concatenate to the query |
| Addressing.PieceCount | internal/mc/client.go:97-107 | there are ceil(length / piece length) of them |
| Addressing.ChunkedShape | internal/mc/client.go:109-122 | chunking only adds dots, never one at the end, and the length is known exactly |
| Addressing.FragmentLength | internal/mc/client.go:65-78 | the exact length of a fragment address |
| Addressing.FragmentsFit | internal/mc/client.go:65-78 | all fragment addresses fit 255 bytes if and only if the budget is at least 40 |
| Addressing.AtLeastTwoPieces | internal/mc/client.go:31-38 | a query that needs fragmenting is split in at least two, as the server requires, if and only if the budget is at least 41 or the text is longer than 40 |
| Addressing.FittingPiecesAreSeveral | internal/mc/client.go:65-71 | in particular whenever the addresses fit |
| Addressing.SplitEncodedPieces | internal/mc/client.go:97-107 | the loop yields exactly the specified pieces |
| Addressing.ChunkLabels | internal/mc/client.go:109-122 | the loop yields exactly the chunked text |
| Addressing.QueryPings | internal/mc/client.go:24-90 | the client's branches and loop send exactly the specified pings, or none if refused |
| Transport.ReceivePing | internal/mc/server.go:144-189 | the reads of handshake frame, handshake and status request in order give the specified route, or none at the first thing that is wrong |
| Transport.PingReceived | internal/mc/server.go:144-175 | what a client writes for a ping, a handshake and a status request, is routed as sent if and only if the address has at most 1020 bytes and the handshake frame is within the limit, whatever follows on the stream |
| Transport.OrdinaryAccepted | internal/mc/server.go:253-258 | addresses of at most 255 bytes pass under the default frame limit and any limit from 263 on |
| Transport.EncodedLength | internal/dnscodec/codec.go:103-126 | a name of n characters encodes to at most (8n + 68) / 5 characters, that is 418 for 253 |
| Transport.SixteenPiecesSuffice | internal/mc/client.go:71-74 | a query is not refused for needing too many fragments exactly up to sixteen times the piece length, hence never up to 640 characters |
| Transport.NonceShape | internal/mc/client.go:51-55 | two random bytes make a nonce of four characters without dots, as isFragmented demands |
| Transport.DeliveredAtOnce | internal/mc/client.go:30-37 | the one ping of a query that fits one address, if it is let through, is routed to the decoder with the encoded query exactly if the server cuts off nothing but the suffix |
| Transport.DeliveredInPieces | internal/mc/client.go:71-83 | otherwise every ping that is let through is recognised as the right piece, index and total, unless it is the only one, when it is taken for a whole query, or is cut, when it is not what it was |
| Transport.TunnelDelivers | internal/mc/client.go:24-90 | for every accepted query, dot-free passphrase, suffix or none, nonce and frame limit, all pings reach the place they are meant for if and only if one address suffices or two to sixteen pieces result (budget at least 41 or more than 40 characters), the readers let all of them through, and nothing but the suffix is cut off; the pieces make up the encoded query, which decodes to the query normalised |
| Transport.OrdinaryDelivered | internal/mc/client.go:62-74 | in particular, for names of at most 391 characters whenever the budget is at least 40 and the frame limit the default or at least 263, exactly if nothing is cut off |
| Transport.KnownUntouched | internal/dnscodec/codec.go:285-297 | and nothing is whenever the server knows the client's suffix |
| Transport.LoneFragmentLost | internal/mc/client.go:65-83 | the other case: a query of at most 40 characters that does not fit one address, with a budget of at most 40, is sent as one fragment, which the server denies or takes for a whole query and cannot decode |
| Transport.LongSuffixLoses | internal/mc/client.go:57-69 | with a suffix of 255 bytes or more every query for a name of at most sixteen characters is lost this way |
| Transport.LosingInput | internal/mc/client.go:57-69 | such a client and server, and such a query, written out |
| Transport.AddressableWhenShort | internal/mc/client.go:124-132 | addresses are shorter than 2^31 bytes whenever passphrase, suffix and text together are shorter than 2^28 |
| Tunnel.AssembledQueryDecodes | internal/mc/server.go:392-394 | a completer of the query's key decodes the query normalised |
| Tunnel.RunOfPings | internal/mc/server.go:380-388 | connections that stem from the query's pings, if nothing but the suffix is cut off these, bring exactly its pieces under its key |
| Tunnel.TunnelAssembles | internal/mc/server.go:380-394 | end to end: in any interleaving in which the connections under one client and nonce stem from the query's pings, in any order and number, and nothing but the suffix is cut off these, the completing one decodes the client's query normalised |
| Tunnel.TunnelCompletes | internal/mc/server.go:380-394 | and, among any other connections: once each piece has been stored and no connection came more than ten seconds after the query's latest, there is such a completer |
| Tunnel.PingsAloneComplete | internal/mc/client.go:76-90 | such runs exist: whenever a fragmented query is deliverable, its pings can arrive one by one after any earlier run, and the last connection decodes the query |
| FragmentDelivery.AllStoredCompletes | internal/mc/fragment.go:50-76 | in every run, whatever other connections do in between: once each piece of a key has been stored in time, a connection is the completer, and the text it reassembles is the whole query |
| FragmentDelivery.RunGathers | internal/mc/fragment.go:50-76 | until then the set of the key is neither purged nor replaced, and holds every piece that has been stored |
| FragmentDelivery.LastPieceCompletes | internal/mc/fragment.go:50-86 | pieces that arrive one after the other with nothing in between, after any earlier run, make the last connection the completer, with the whole query |
| FragmentDelivery.AllArrive | internal/mc/fragment.go:50-76 | after each of these the set holds exactly the pieces so far and has not been purged or started early |
| FragmentSafety.StepKeepsInv | internal/mc/fragment.go:50-115 | every critical section and channel operation keeps the protocol's invariant |
| FragmentSafety.RunKeepsInv | internal/mc/fragment.go:50-115 | so does every run, with purges and other keys anywhere, also inside `add` |
| FragmentSafety.CompleterHasTheQuery | internal/mc/server.go:391-394 | in every run a completer has reassembled exactly the query sent under its key |
| FragmentSafety.OneCompleter | internal/mc/fragment.go:70-73 | in every run a set has at most one completer |
| FragmentSafety.ClosedOnce | internal/mc/fragment.go:88-95 | in every run no result channel is closed twice |
| FragmentSafety.WaiterGetsTheAnswer | internal/mc/fragment.go:97-106 | in every run a waiter that did not time out has what its set's completer published |
| FragmentSafety.CompletesWhenFull | internal/mc/fragment.go:66-73 | in every run a set has a completer exactly when all its pieces have arrived |
| FragmentProtocol.AllPresent | internal/mc/fragment.go:70-73 | as many pieces as the total means that each of 1..total is there |
| FragmentProtocol.StartedWhenFull | internal/mc/fragment.go:70-73 | a set is started exactly when no piece is missing |
| FragmentProtocol.StartedSetReassembles | internal/mc/fragment.go:78-86 | a started set reassembles to the concatenation of the query's pieces |
| FragmentAssembler.FragmentSet.Insert | internal/mc/fragment.go:64-75 | the second section of `add`: the protocol's insertion on the object's fields |
| FragmentAssembler.FragmentSet.Reassembled | internal/mc/fragment.go:78-86 | the loop concatenates pieces 1..total and changes nothing |
| FragmentAssembler.FragmentSet.StoreResult | internal/mc/fragment.go:88-95 | stores the answer and closes the channel, nothing else |
| FragmentAssembler.Assembler.PurgeLocked | internal/mc/fragment.go:108-115 | deletes exactly the sets not seen for twice the timeout |
| FragmentAssembler.Assembler.Lookup | internal/mc/fragment.go:50-62 | a live set of the key is reused, otherwise a new one is put in; no other set is touched |
| FragmentAssembler.Assembler.Add | internal/mc/fragment.go:50-76 | both sections without interruption: the piece is in the set of its key, stale sets are gone, and no other set changes |
| RateLimiter.AdmittedExactly | internal/mc/ratelimit.go:36-57 | a call is admitted if and only if that keeps every window since an earlier call of its IP within burst + rate * length; other IPs and patient cleanups do not matter |
| RateLimiter.AvailableIsTight | internal/mc/ratelimit.go:40-51 | the tokens a call finds are what the tightest such window leaves |
| RateLimiter.WindowBound | internal/mc/ratelimit.go:36-57 | between two calls at s <= t at most burst + rate * (t - s) calls of one IP are admitted |
| RateLimiter.SpacedCallsAdmitted | internal/mc/ratelimit.go:45-56 | a caller at least 1/rate after its previous calls is never refused |
| RateLimiter.BucketBounds | internal/mc/ratelimit.go:45-55 | in every run tokens stay within 0 and burst, and a bucket's time is that of its IP's last call |
| RateLimiter.PatientCleanupsUnseen | internal/mc/ratelimit.go:59-70 | if a dropped bucket would have refilled, every verdict equals that of a limiter that never cleans up |
| RateLimiter.SameAvailable | internal/mc/ratelimit.go:59-70 | and so do the tokens on offer, at every later time |
| RateLimiter.ShortTimeoutSeen | internal/mc/ratelimit.go:59-70 | a run in which an impatient cleanup changes a verdict, for every rate and every timeout below a second |
| RateLimiter.CleanupUnseenExactly | internal/mc/server.go:129 | cleanup goes unnoticed in all runs if and only if its timeout is at least one second |
| RateLimiter.NewLimits | internal/mc/ratelimit.go:24-33 | rate and burst are the configured number, and at least one |
| RateLimiter.Limiter.Allow | internal/mc/ratelimit.go:36-57 | the method on the bucket map is the step the runs are made of |
| RateLimiter.Limiter.Cleanup | internal/mc/ratelimit.go:61-70 | the deleting loop drops exactly the buckets last used before the cutoff |
| CacheSafety.InterleavingsSafe | internal/cache/cache.go:52-162 | after any interleaving of the locked sections of Gets and Sets, with any stale entry references, map and list correspond one to one, keys match, and the size is within the limit |
| CacheSafety.SectionKeepsInv | internal/cache/cache.go:52-162 | each section keeps this, whatever ran before it |
| CacheSafety.SetKeepsInv | internal/cache/cache.go:118-126 | in particular Set, with its eviction |
| CacheSafety.EvictKeepsInv | internal/cache/cache.go:141-156 | the eviction loop ends within the limit and keeps the correspondence |
| CacheSafety.InsertKeepsBijective | internal/cache/cache.go:120-125 | replacing or adding an entry keeps it |
| CacheSafety.TouchKeepsBijective | internal/cache/cache.go:79-81 | moving an element to the front keeps it, also if the element has been removed meanwhile |
| CacheSafety.UnlinkKeepsBijective | internal/cache/cache.go:131-136 | removing by key keeps it, also if the entry has been replaced meanwhile |
| CacheModel.SameSize | internal/cache/cache.go:20-27 | corresponding one to one, map and list have the same size |
| CacheRefinement.GetRefines | internal/cache/cache.go:52-85 | Get is the get of a recency-ordered list of entries, and returns the same |
| CacheRefinement.SetRefines | internal/cache/cache.go:94-127 | Set is the set of that list |
| CacheRefinement.EvictRefines | internal/cache/cache.go:141-156 | and so is eviction |
| CacheRefinement.FindIsEntryOf | internal/cache/cache.go:53-55 | the map finds a key's place in the list |
| CacheRecency.ListedByUse | internal/cache/cache.go:79-81 | in every history the list is in the order of the last hit or Set of each key |
| CacheRecency.SetEvictsLeastRecent | internal/cache/cache.go:138-156 | in every history a Set evicts an entry if and only if the cache has become too large and the entry is, of the expired ones if there are any, else of all, the one whose last hit or Set is longest ago |
| CacheRecency.SizeKept | internal/cache/cache.go:143-155 | in every history the list stays within the limit |
| CacheRecency.HistoryRefines | internal/cache/cache.go:52-127 | the map, list and entries of the cache after any history show that history's list, and their Gets return the same |
| CacheRefinement.JustStoredSurvives | internal/cache/cache.go:117-126 | a just-stored key is still in the map after its own eviction pass, unless the clock has passed its expiry by then, the other entries fill the cache, and none of them has expired |
| CacheRefinement.JustStoredLost | internal/cache/cache.go:117-126 | a cache, a message and two clock readings for which it does not survive |
| CacheHistory.GetHitsExactly | internal/cache/cache.go:52-66 | in every history a Get hits if and only if the last Set for its key has not expired and its entry has not been evicted since |
| CacheHistory.FateHolds | internal/cache/cache.go:52-162 | in every history what a key holds is decided by its last Set and later evictions alone |
| CacheHistory.ExpiresWithSmallestTtl | internal/cache/cache.go:98-114 | a cached answer expires no later than its smallest TTL, except exactly when that TTL or the configured one is below a second and the negative TTL is longer |
| CacheAgeing.HitsAddUp | internal/cache/cache.go:52-85 | in every history a hit returns the message last stored under its key, aged by the seconds since that Set once for itself and once for each earlier hit since; and it comes before the expiry set then |
| CacheAgeing.HeldIsAged | internal/cache/cache.go:67-78 | in every history each entry is what was stored last under its key, aged by the sum over its hits |
| CacheAgeing.ReturnedTtl | internal/cache/cache.go:67-92 | in every history no TTL returned by a hit, in any section, is above the stored one less the seconds elapsed, or zero; it is exactly that if and only if the earlier hits since the Set add up to less than a second, or it has run out |
| CacheAgeing.AgedTooFast | internal/cache/cache.go:67-78 | a record stored for 100 seconds and hit after 10 and after 20 seconds is returned with 70, not 80 |
| CacheAgeing.NeverHitLateExactly | internal/cache/cache.go:98-114 | an answer is never hit after its smallest TTL has run out, in any history, if and only if that TTL and the configured one are at least a second or the negative TTL is no longer |
| Cache.Store.constructor | internal/cache/cache.go:29-46 | non-positive settings are replaced by the defaults, and the cache is empty |
| Cache.Store.Get | internal/cache/cache.go:52-85 | result and new state are those of the sections run in a row |
| Cache.Store.Set | internal/cache/cache.go:94-127 | the new state is that of the locked section, within the size limit |
| Cache.Store.RemoveLocked | internal/cache/cache.go:131-136 | removes the key from map and list |
| Cache.Store.EvictLocked | internal/cache/cache.go:141-156 | the loop evicts one victim after another until the cache fits |
| Cache.Store.ScanFromBack | internal/cache/cache.go:144-153 | finds the expired element nearest the back, or the back |
| ConnPoolModel.SlotsConserved | internal/upstream/conn_pool.go:52-111 | in every run total = idle + held + dialing + being closed, and total <= max |
| ConnPoolModel.NeverHeldTwice | internal/upstream/conn_pool.go:52-111 | in every run no connection is in two hands, or in one and idle |
| ConnPoolModel.OverflowUnreachable | internal/upstream/conn_pool.go:103-110 | in every run release finds room in the idle channel |
| ConnPoolModel.ReleasedExactlyOnce | internal/upstream/tcp.go:36-59 | on every path an exchange releases what it acquired exactly once |
| ConnPoolModel.RunKeepsInv | internal/upstream/conn_pool.go:52-111 | every interleaving of exchanges keeps the pool's invariant |
| ConnPool.AcquireTakesFirstUsable | internal/upstream/conn_pool.go:53-79 | the first idle connection that is not stale is taken and exactly those before it are dropped |
| ConnPool.SlotsKept | internal/upstream/conn_pool.go:52-90 | an acquisition keeps the slot count right and within the limit, whatever its outcome |
| ConnPool.Pool.Acquire | internal/upstream/conn_pool.go:52-82 | the retry loop gives the specified outcome and pool |
| ConnPool.Pool.Release | internal/upstream/conn_pool.go:94-111 | a healthy connection becomes idle, any other frees its slot |
| ConnPool.Pool.Exchange | internal/upstream/tcp.go:36-59 | every counted slot is idle again afterwards, and an answer is given exactly if the connection or the one retry worked |
| UpstreamPool.LessLaws | internal/upstream/upstream.go:40-52 | the order of upstreams is strict and total |
| UpstreamPool.SortOrders | internal/upstream/upstream.go:95 | sorting orders the list and keeps its members |
| UpstreamPool.OrderDeterminesList | internal/upstream/upstream.go:95 | the order determines the list, so any sorting algorithm gives the same |
| UpstreamPool.HigherTiersFailFirst | internal/upstream/upstream.go:54-82 | an upstream is tried only after every one of a higher priority has failed in this exchange; an exchange is lost only if all failed or the request was over |
| UpstreamPool.TriesExact | internal/upstream/upstream.go:60-77 | exactly the upstreams up to the first answer are tried |
| UpstreamPool.WeightedMean | internal/upstream/upstream.go:90-94 | a new average lies within the samples it came from |
| UpstreamPool.PoolStaysOrdered | internal/upstream/upstream.go:29-96 | after any sequence of exchanges the list is an ordered permutation of the original and every average lies within its samples |
| UpstreamPool.TiersInEveryRun | internal/upstream/upstream.go:54-96 | so in the next exchange of every run, whatever upstream has a higher priority than a tried one has been tried before it and has failed |
| UpstreamPool.Pool.constructor | internal/upstream/upstream.go:29-36 | starts ordered, without averages |
| UpstreamPool.Pool.RecordSuccess | internal/upstream/upstream.go:86-96 | updates one average and re-sorts |
| UpstreamPool.Pool.Exchange | internal/upstream/upstream.go:54-82 | the loop over the snapshot tries and answers as specified |
| Records.LookupRecords | internal/records/records.go:73-109 | the loops give the specified records, or none |
| Records.LookupOwnership | internal/records/records.go:73-109 | which names are owned; an exact name answers with all records of the type, else with its CNAME, and is empty only if it has neither; a wildcard answers under the asked name |
| Records.FirstCoverWins | internal/records/records.go:92-107 | the first covering wildcard in configuration order answers |
| Records.WildcardOverreaches | internal/records/records.go:92-107 | a wildcard with records answers for every name it is meant for, and for no others exactly if it is the wildcard of the root |
| Records.WildcardCrossesLabels | internal/records/records.go:92-107 | whatever the store, the lookup of a wildcard's suffix with one more letter in front, and no dot, is answered |
| Resolver.CacheKeyExact | internal/cache/cache.go:48-50 | two questions share a cache key if and only if their names agree up to case and final dot and their types and classes are equal or both unnamed |
| Resolver.LookupByKey | internal/records/records.go:73-109 | questions that share a cache key are owned alike and answered alike up to owner case |
| Resolver.StoreEntryOk | internal/resolver/resolver.go:57-67 | a cached store answer is right for every question that will find it |
| Resolver.UpstreamEntryOk | internal/resolver/resolver.go:104-106 | a cached upstream answer is never found under a question the store owns |
| Resolver.ResolveStep | internal/resolver/resolver.go:34-108 | a truthful history stays so: owned questions get the store's answer up to TTL and owner case and go to no upstream, other hits were received for a question with the same key, and every query sent carries its client's OPT records, after which comes none with DO |
| Resolver.EveryRunTruthful | internal/resolver/resolver.go:34-108 | hence in every run from an empty cache; a query sent upstream carries DO if and only if its client set it, and the last of its OPT records, the one IsEdns0 finds, never does |
| Resolver.FirstTry | internal/resolver/resolver.go:78-88 | a first try honours the client's size; of one OPT record of the client it makes two exactly if that sets DO, and DO is carried exactly if the client set it |
| Resolver.RetryAsksTwice | internal/resolver/resolver.go:90-94 | a retry asks for the largest buffer in its last OPT record, and always carries at least two |
| Resolver.DoGoesUpstream | internal/resolver/resolver.go:85-94 | the query of size 512 with DO: both records go upstream, and three with a retry |
| Resolver.TunnelledWithoutDo | internal/dnscodec/codec.go:234-236 | a query out of the tunnel never makes DO go upstream; its first try has one OPT record, its retry two |
| Resolver.AskedAndCached | internal/resolver/resolver.go:81-107 | exactly what is asked: the question with these OPT records, and once more exactly if the first answer is truncated; only a whole answer is handed to the cache |
| ResolverReuse.AnsweredAgain | internal/resolver/resolver.go:46-107 | in every run, what a resolution obtained from the store or whole from an upstream answers every question with the same key until it expires, aged, and nobody is asked again |
| ResolverReuse.HitWasAsked | internal/cache/cache.go:48-50 | in every run, what the cache answers to a question that is not the store's own was received for that very name, type and class, if type and class have names |
| ResolverReuse.UnnamedTypesShare | internal/cache/cache.go:48-50 | otherwise a question for one unnamed type gets the answer obtained for another |
| ResolverReuse.PlainGetsOptExactly | internal/resolver/resolver.go:46-53 | in every run, the response to a query without OPT record carries one if and only if it comes from the cache and its key was last stored for a client that sent one, with an upstream's |
| ResolverReuse.PlainAfterEdns | internal/resolver/resolver.go:101-106 | so a plain query repeated after one with an OPT record gets the upstream's OPT record, until the entry expires |
| ResolverObject.Instance.Resolve | internal/resolver/resolver.go:34-108 | the method over the cache object and the store does what the histories say |
| ResolverObject.Instance.StripOPT | internal/dnscodec/codec.go:701-713 | drops the OPT records of the extra section and nothing else |
| Client.UsageIs | internal/client/client.go:145-154 | after n picks server i has been used n / servers times, rounded up for the first n mod servers |
| Client.UsageBalanced | internal/client/client.go:145-154 | usage counts never differ by more than one |
| Client.PicksDiffer | internal/client/client.go:145-154 | no server is picked twice within one round |
| Client.PickedWithin | internal/client/client.go:145-154 | every server is picked once within one round |
| Client.Failover.PickServer | internal/client/client.go:145-154 | takes the next server in turn; a single server leaves the counter alone |
| Client.Failover.ResolveThroughTunnel | internal/client/client.go:116-135 | each server is tried at most once, and there is an answer if and only if some server gives one |

## Left out

- The DNS library: presentation names, packing of resource records, and unpacking of the rebuilt wire; names are wire labels, RDATA is opaque bytes, and decoding stops at the rebuilt wire.
- Base64, status JSON, favicon prefix, message of the day, login kick, player counts: presentation.
- Sockets, deadlines, TLS, DoH and DoT (DoT uses the pool as TCP does), goroutine start-up, logging.
- Configuration, command line, VPN discovery and the client's VPN path; the client's cache branch repeats the resolver's use of the cache.
- Construction of the record store from configuration text; its lookups are modelled over any store whose types have names.
- The other records of a query's additional section, which go upstream unchanged.
- Resolver statistics, response ids, the echoed question section, and of a response's flags all but Authoritative.
- Addresses and names are ASCII: Unicode case mapping of other characters is not modelled.
- Passphrases with dots, which cmd/dnsmc/main.go:308-320 excludes; the comparison is plain equality and its timing is not modelled.
- Progress: a waiting acquirer is not woken by an unhealthy release, and a fragment set that never fills up is only purged; completion is claimed once every piece has been stored and no connection came later than the retention time.
- Reuse of a nonce by one client within the retention window: the fragment theorems speak of keys used for one query.
- Cache.Store.Get: the TTL updates of one hit are one step; two concurrent hits racing on the same record are not modelled.
- UpstreamPool.Pool.Exchange: exchanges follow one another; a concurrent one would iterate over an older snapshot.
- Rounding and not-a-number values of response times and tokens; both are reals.
- Addresses of 2^31 bytes and more, whose lengths do not fit the 32-bit varints.
- Cache lifetimes of 2^32 seconds and more, where the conversion to 32 bits would wrap.
- UpstreamPool.SortOrders: the library's sort is represented by an insertion sort; the order determines the resulting list.
- FragmentAssembler.FragmentSet.StoreResult: storing and closing are one method here; FragmentSafety treats them as two steps of an interleaving.
