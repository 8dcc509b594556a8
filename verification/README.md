# libevent core, modelled and proved in Dafny

A verification project for the libevent 2.1.8 sources under
`shadowsocks/src/main/jni/libevent`. It models six parts of the library and
proves what they promise:

- **Buffers** (`Flat`, `Chains`, `Evbuffers`, `EvbufferRuns`, `EvbufferExpand`,
  `EvbufferRead`, `EvbufferSearch`): the evbuffer as heap nodes linked by
  `next`, with its cached tail, its cached slot of the last chain with data and
  its cached length, against a flat byte string.
- **DNS** (`DnsNames`, `DnsMessages`, `CircularLists`, `Resolvers`,
  `GetAddrInfos`): names with compression (sections 3.1 and 4.1.4 of RFC 1035),
  queries, the resolver's queues and servers, and the two-lookup getaddrinfo.
- **Event interest** (`Epoll`, `EventMaps`): counts per descriptor, the change
  list with its inverse index, and the table that turns changes into epoll calls.
- **Scheduler** (`EventQueues`, `EventBases`): active, later, heap and
  common-timeout queues, flags and counters, and how long the loop may wait.
- **Rate limiting** (`TokenBuckets`, `RateLimits`): token buckets, suspend
  reasons, refill timers and groups with try-locks.
- **Codecs** (`TagCodec`, `Tagging`, `Arc4`): the tagged stream over an evbuffer,
  and the RC4 generator with its uniform choice.

`Wrappers` and `Lists` hold what several of them share. `dafny verify
dfyconfig.toml` checks everything. Sizes are those of the two 32-bit builds among
the four the repository makes (`armeabi-v7a` and `x86`, shadowsocks/build.gradle.kts:18):
`SIZE_MAX` is 0xffffffff, chains start at 512 bytes.

Six remarks on where the code and what is said about it differ:

- The evbuffer header only promises where the last chain with data is.
  `advance_last_with_data` needs more: no empty chain before it
  (`NoHoles`). `Chains.AdvancedFindsLast` and the contracts of `Prepend` and
  `PrependBuffer` say exactly when that holds; `Chains.HoleHidesData` shows a list
  where it does not and data is missed. `RemoveBuffer` therefore asks for a source
  without holes.
- The cached length of an evbuffer has 32 bits. `evbuffer_add` and `evbuffer_prepend`
  look at it before they add; references, whole buffers, whole chains and reads do
  not, and `Evbuffers.CountWraps` shows the length wrap. The contracts say exactly when
  it stays right. `evbuffer_remove_buffer` ignores the result of `evbuffer_add` and
  drains what that refused: `Evbuffers.BytesLost` is an input, `Evbuffers.RemovedLost`
  the exact condition. `evbuffer_remove` reads a count of 2 to the 31 or more as
  negative and then drains nothing.
- A DNS name comes back as it was written exactly if no label is empty
  (`DnsNames.DottedStem`). `dnsname_to_labels` writes its final zero without
  looking at the buffer's length: `DnsNames.ZeroBeyond` is a call that ends behind
  it, and the contract of `DnsNames.ToLabels` says exactly which calls do. Where the
  array ends there too, the source writes behind it; the model answers `OUTSIDE`.
- The comment in `event_tagging.c` gives numbers and tags in big-endian order;
  the code writes the least significant nibble or group first, and so does the model.
  In `request_parse` the test for non-standard queries reads flags already masked
  out, so its branch is never taken; a query without questions is refused because
  `event_mm_calloc_` returns nothing for no elements (event.c:3445-3448).
- `bufferevent_rate_limit_group_set_min_share` accepts a share of zero. Then a
  refill unsuspends an exhausted group (`RateLimits.ShareOfNothing`); the contract
  of `Group.RefillCallback` says exactly when it does.
- A token bucket is not capped once a refund has put it above its maximum: the
  contract of `TokenBuckets.Credit` says exactly when the capped sum comes out,
  `TokenBuckets.RefundGrows` what comes out otherwise.

## Model

| member | source | states |
|---|---|---|
| `Chains.Chain.constructor` | shadowsocks/src/main/jni/libevent/buffer.c:155-192 | a new chain holds no bytes and has at least the room asked for, with its header the smallest block or less than twice what is needed, and never more than the largest chain if the request fits that |
| `Chains.Chain.Align` | shadowsocks/src/main/jni/libevent/buffer.c:1902-1909 | moving the bytes to the start of the block keeps them and the size of the block |
| `Chains.AdvancedFindsLast` | shadowsocks/src/main/jni/libevent/buffer.c:702-716 | the walk that stops at the first empty chain ends at the last chain with data if and only if no empty chain lies before that one |
| `Chains.HoleHidesData` | shadowsocks/src/main/jni/libevent/buffer.c:702-716 | a concrete list in which the walk misses data behind an empty chain |
| `Chains.PrependedSlot` | shadowsocks/src/main/jni/libevent/buffer.c:1876-1883 | a chain put in front leaves the slot of the last chain with data right if and only if the buffer held data |
| `Evbuffers.Evbuffer.FreeTrailingEmptyChains` | shadowsocks/src/main/jni/libevent/buffer.c:289-302 | cuts the list right after its last data and returns the slot there |
| `Evbuffers.Evbuffer.ChainInsert` | shadowsocks/src/main/jni/libevent/buffer.c:307-326 | the new chain replaces the trailing empty ones; contents grow by exactly its bytes, and all cached fields stay right |
| `Evbuffers.Evbuffer.Add` | shadowsocks/src/main/jni/libevent/buffer.c:1722-1817 | appends exactly the data, or changes nothing and fails exactly when frozen or too long; keeps the header invariant and freedom from holes |
| `Evbuffers.Evbuffer.AddReference` | shadowsocks/src/main/jni/libevent/buffer.c:2907-2945 | the same for memory of the caller, kept as a read-only chain; as the source does not look at the length, the cached one stays right if and only if the new one is a size |
| `Evbuffers.Evbuffer.Prepend` | shadowsocks/src/main/jni/libevent/buffer.c:1819-1899 | prepends exactly the data; no hole appears if and only if the data is not empty, or the first chain is absent or writable |
| `Evbuffers.Evbuffer.Drain` | shadowsocks/src/main/jni/libevent/buffer.c:1095-1161 | drops exactly the first bytes, whole chains and a part of one |
| `Evbuffers.Evbuffer.CopyOut` | shadowsocks/src/main/jni/libevent/buffer.c:1178-1249 | called without a position: returns exactly the first bytes and changes nothing; the count is negative from 2 to the 31 on |
| `Evbuffers.Evbuffer.Remove` | shadowsocks/src/main/jni/libevent/buffer.c:1164-1176 | the old contents are the bytes returned followed by the new contents, up to 2 to the 31 less one; from there on nothing is drained |
| `Evbuffers.Evbuffer.AddBuffer` | shadowsocks/src/main/jni/libevent/buffer.c:960-1004 | concatenates the other buffer and empties it, or does nothing for itself, an empty one or a frozen end; chains move without copying; the cached length stays right if and only if the sum is a size |
| `Evbuffers.Evbuffer.PrependBuffer` | shadowsocks/src/main/jni/libevent/buffer.c:1049-1093 | puts the other buffer in front; no hole appears if and only if that buffer has no trailing empty chain; the cached length stays right if and only if the sum is a size |
| `Evbuffers.Evbuffer.AdvanceLastWithData` | shadowsocks/src/main/jni/libevent/buffer.c:702-716 | the cached slot moves along the chains with data, to where AdvancedFindsLast says |
| `Evbuffers.Evbuffer.RemoveBuffer` | shadowsocks/src/main/jni/libevent/buffer.c:1254-1342 | the first bytes leave this buffer; those in whole chains are relinked behind the other, the rest copied unless that is refused; both lists stay sound and share no chain, and the exact new contents and cached length are given for all lengths |
| `Evbuffers.RemovedWell` | shadowsocks/src/main/jni/libevent/buffer.c:1254-1342 | all bytes arrive and the length is right if and only if the other buffer then holds no more than a size |
| `Evbuffers.RemovedLost` | shadowsocks/src/main/jni/libevent/buffer.c:1254-1342 | bytes are lost if and only if the whole chains leave the length of the other buffer a size and the rest does not |
| `Evbuffers.BytesLost` | shadowsocks/src/main/jni/libevent/buffer.c:1310-1325 | two bytes moved to a buffer with room for one are gone from both, and the call reports two |
| `Evbuffers.CountWraps` | shadowsocks/src/main/jni/libevent/buffer.c:2907-2945 | the same memory referred to twice makes a buffer of 2 to the 32 bytes whose cached length is zero |
| `Evbuffers.Evbuffer.Pullup` | shadowsocks/src/main/jni/libevent/buffer.c:1344-1454 | contents unchanged; succeeds exactly for a size that can be met, and then the first chain alone holds that many bytes |
| `EvbufferRuns.Run` | shadowsocks/src/main/jni/libevent/evbuffer-internal.h:80-104 | every run of appends, references, prepends, drops, removals, pullups, moves of all or some bytes and buffers put in front, each on either of two buffers, leaves both valid, without holes and sharing no chain, and holding what the run does to two byte strings; while no length passes a size, everything is done as asked but for buffers put in front |
| `EvbufferRuns.TakeTurn` | shadowsocks/src/main/jni/libevent/buffer.c:1049-1093 | one turn of such a run; exactly when it is passed over (a hole, or a length that would wrap) and exactly when it loses bytes |
| `EvbufferRuns.KnownSteps` | shadowsocks/src/main/jni/libevent/evbuffer-internal.h:80-104 | every operation of a run, on a few bytes |
| `EvbufferExpand.ExpandSingleChain` | shadowsocks/src/main/jni/libevent/buffer.c:1927-2035 | contents unchanged; the chain returned has the room asked for and is the last one with data or the one behind it |
| `EvbufferExpand.Resize` | shadowsocks/src/main/jni/libevent/buffer.c:1999-2025 | a larger copy takes the place of the last chain with data; everything else in the list stays |
| `EvbufferRead.ExpandFast` | shadowsocks/src/main/jni/libevent/buffer.c:2039-2147 | contents unchanged; at most n chains from the last one with data on offer the room asked for |
| `EvbufferRead.ReadSetupVecs` | shadowsocks/src/main/jni/libevent/buffer.c:2213-2247 | never runs off the list; the vectors cover the room of consecutive chains and add up to the size wanted |
| `EvbufferRead.Commit` | shadowsocks/src/main/jni/libevent/buffer.c:2366-2391 | every vector that got bytes is counted in, in order, and the slot of the last chain with data is found |
| `EvbufferRead.JoinReadInto` | shadowsocks/src/main/jni/libevent/buffer.c:2366-2391 | pieces put behind the segments from the first chain with room on append their concatenation |
| `EvbufferRead.Read` | shadowsocks/src/main/jni/libevent/buffer.c:2270-2399 | as many bytes as are pending, within what the caller asks for and what the descriptor reports, 4096 if it reports nothing usable; contents become the old bytes followed by exactly these, for every split over the vectors; list sound and freedom from holes kept; the cached length stays right if and only if the new one is a size |
| `EvbufferSearch.SetPtr` | shadowsocks/src/main/jni/libevent/buffer.c:2609-2659 | a pointer set or moved denotes the same offset in chain form and in flat form, or fails exactly when out of range |
| `EvbufferSearch.Subtract` | shadowsocks/src/main/jni/libevent/buffer.c:2589-2607 | moving back denotes the smaller offset, across chains |
| `EvbufferSearch.CopyOutFrom` | shadowsocks/src/main/jni/libevent/buffer.c:1184-1249 | the bytes from any position on, across chains, as many as asked for or as there are; fails exactly when frozen or when the end would not be a signed size |
| `EvbufferSearch.PtrMemcmp` | shadowsocks/src/main/jni/libevent/buffer.c:2665-2699 | equality of flat bytes at the pointer, across chains |
| `EvbufferSearch.SearchRange` | shadowsocks/src/main/jni/libevent/buffer.c:2707-2769 | the first match at or after the start that ends by the end, or none where there is none |
| `EvbufferSearch.FindEolChar` | shadowsocks/src/main/jni/libevent/buffer.c:1488-1513 | the first CR or LF, whatever the 128-byte chunks |
| `EvbufferSearch.Strspn` | shadowsocks/src/main/jni/libevent/buffer.c:1537-1574 | the length of the run of line-end bytes at the pointer, across chains |
| `EvbufferSearch.SearchEol` | shadowsocks/src/main/jni/libevent/buffer.c:1589-1677 | for every style, the terminator a flat scan finds, also when CR and LF lie in different chains; none where there is none |
| `EvbufferSearch.EolUnique` | shadowsocks/src/main/jni/libevent/buffer.c:1589-1677 | a flat scan has only one answer for a style |
| `EvbufferSearch.AnyMeans` | shadowsocks/src/main/jni/libevent/buffer.c:1619-1624 | the first run of bytes 10 and 13, all of it |
| `EvbufferSearch.CrlfMeans` | shadowsocks/src/main/jni/libevent/buffer.c:1632-1652 | the first byte 10 with a 13 before it, if there is one behind the start |
| `EvbufferSearch.CrlfStrictMeans` | shadowsocks/src/main/jni/libevent/buffer.c:1625-1631 | the first 13 directly followed by 10 |
| `EvbufferSearch.LfMeans` | shadowsocks/src/main/jni/libevent/buffer.c:1653-1662 | the first byte 10, or the first byte 0 |
| `EvbufferSearch.Readln` | shadowsocks/src/main/jni/libevent/buffer.c:1679-1716 | the old contents are line, terminator and new contents; without a terminator, or with one at an offset of 2 to the 31 or more, nothing changes |
| `DnsNames.DottedStem` | shadowsocks/src/main/jni/libevent/evdns.c:1599-1663 | the labels before the first empty one spell the name again if and only if no label is empty |
| `DnsNames.TrailingDotLost` | shadowsocks/src/main/jni/libevent/evdns.c:1656-1659 | a name with a trailing dot is read back without it |
| `DnsNames.EndOfLocal` | shadowsocks/src/main/jni/libevent/evdns.c:959-1013 | what a name in a message means depends only on the bytes before its end |
| `DnsNames.EndOfUnique` | shadowsocks/src/main/jni/libevent/evdns.c:959-1013 | a name in a message has only one list of labels |
| `DnsNames.NameParse` | shadowsocks/src/main/jni/libevent/evdns.c:959-1013 | halts on every byte string; succeeds on exactly the names that end, stay inside the message and fit the output, with their labels and the index behind them, wherever their pointers lead; in particular on every well-formed name |
| `DnsNames.EndOfWalks` | shadowsocks/src/main/jni/libevent/evdns.c:959-1013 | every well-formed name is found by following pointers, with the same end |
| `DnsNames.OnlyLoopsJumpMore` | shadowsocks/src/main/jni/libevent/evdns.c:981-991 | a name that ends at all ends within as many jumps as the message has bytes, so the limit refuses only loops |
| `DnsNames.LabelTable.GetPos` | shadowsocks/src/main/jni/libevent/evdns.c:1559-1568 | finds a suffix if and only if the table has it |
| `DnsNames.LabelTable.Add` | shadowsocks/src/main/jni/libevent/evdns.c:1571-1586 | remembers the suffix, unless the table is full |
| `DnsNames.ToLabels` | shadowsocks/src/main/jni/libevent/evdns.c:1599-1663 | succeeds if and only if the name has at most 255 bytes, no label to be spelled out is over 63, and the bytes that are compared with the length fit; writes past the length if and only if the name ends in a spelled label and takes exactly one byte more, and past the array if and only if the length is also that of the array; earlier bytes stay; the name decodes to its labels and every table entry to its suffix; every suffix spelled out is in the table unless it is full; the length is that of the best compression with the old table |
| `DnsNames.ZeroBeyond` | shadowsocks/src/main/jni/libevent/evdns.c:1656-1662 | the name "a" with two bytes announced ends at the third |
| `DnsMessages.SectionSnoc` | shadowsocks/src/main/jni/libevent/evdns.c:1917-1928 | writing one more question changes what none of the earlier ones decodes to |
| `DnsMessages.AddQuestions` | shadowsocks/src/main/jni/libevent/evdns.c:1917-1928 | after any sequence of names without empty labels written with one table, each start offset still decodes to its name, type and class; succeeds if all labels are short and the uncompressed names fit; the array is left only where all of it was announced |
| `DnsMessages.RequestBuild` | shadowsocks/src/main/jni/libevent/evdns.c:1679-1704 | succeeds if and only if name, labels and room allow; then id, flags and counts are these twelve bytes, type and class the last four, high byte first, and the message decodes to the one question |
| `DnsMessages.KnownQuery` | shadowsocks/src/main/jni/libevent/evdns.c:1679-1704 | the query for one name, byte by byte |
| `DnsMessages.KnownPointer` | shadowsocks/src/main/jni/libevent/evdns.c:1599-1663 | a name written again is two bytes that point at the first |
| `DnsMessages.ParseQuestions` | shadowsocks/src/main/jni/libevent/evdns.c:1256-1272 | reads exactly the questions that following their names gives, for every message, with type and class the four bytes before each end, high byte first; or fails where one of them cannot be read |
| `DnsMessages.SectionRead` | shadowsocks/src/main/jni/libevent/evdns.c:1256-1272 | a section of well-formed questions is read as exactly these |
| `DnsMessages.RequestParse` | shadowsocks/src/main/jni/libevent/evdns.c:1215-1303 | exact on every message; id, flag bits RD and CD, number, types and classes of questions in terms of bytes; in particular reads back every well-formed query with questions, and rejects answers and queries without any |
| `Resolvers.Resolver.Find` | shadowsocks/src/main/jni/libevent/evdns.c:468-483 | looking in one bucket agrees with looking at everything in flight |
| `Resolvers.Resolver.PickId` | shadowsocks/src/main/jni/libevent/evdns.c:1317-1329 | returns an id that nothing in flight has, whatever is drawn before it |
| `Resolvers.Resolver.FirstFree` | shadowsocks/src/main/jni/libevent/evdns.c:1317-1329 | of the ids drawn, the first that is not reserved and that looking in its bucket does not find; it is free |
| `Resolvers.FreeId` | shadowsocks/src/main/jni/libevent/evdns.c:1317-1329 | with fewer requests in flight than ids, an id is free |
| `CircularLists.Insert` | shadowsocks/src/main/jni/libevent/evdns.c:2719-2734 | the node joins the circle at its end, whether it was empty or not |
| `CircularLists.Remove` | shadowsocks/src/main/jni/libevent/evdns.c:2681-2705 | the others stay a circle in their order, with the right head; the node is detached |
| `Resolvers.Resolver.Pick` | shadowsocks/src/main/jni/libevent/evdns.c:1334-1367 | ends with the next server that is up if there is one, so the assertion in the wrap-around branch holds; else the next of all |
| `Resolvers.PicksFair` | shadowsocks/src/main/jni/libevent/evdns.c:1334-1367 | from any point, as many picks as servers are up return each of them exactly once |
| `Resolvers.Resolver.Submit` | shadowsocks/src/main/jni/libevent/evdns.c:2746-2841 | in flight with an unused id, on the next server that is up, past which the ring turns, if there is room and a server; else last in the waiting queue, without an id if there was no room; lists, counters and distinct ids kept |
| `Resolvers.Resolver.SubmitAll` | shadowsocks/src/main/jni/libevent/evdns.c:2746-2841 | new requests take turns: as many as servers are up go one to each |
| `Resolvers.Resolver.Pump` | shadowsocks/src/main/jni/libevent/evdns.c:742-770 | takes requests from the front of the queue until there is no room, no request or no server; those get unused ids and, one after the other, the servers that as many picks return; nothing else changes |
| `Resolvers.Resolver.Finish` | shadowsocks/src/main/jni/libevent/evdns.c:648-706 | exactly this request is gone, counters follow, and the queue has been pumped; no other request changes |
| `Resolvers.Resolver.Swap` | shadowsocks/src/main/jni/libevent/evdns.c:544-553 | only the assignment changes, and both servers' counters with it |
| `Resolvers.Resolver.Reissue` | shadowsocks/src/main/jni/libevent/evdns.c:714-735 | goes to the next server that is up; succeeds if and only if that is another one; then only that, its counts and its mark change, else nothing |
| `Resolvers.Resolver.Fail` | shadowsocks/src/main/jni/libevent/evdns.c:557-615 | if another server is up, exactly the requests of the failed server that were not sent move, to servers that are up, and nothing else about them or any other request changes; else none does |
| `Resolvers.Resolver.Transmit` | shadowsocks/src/main/jni/libevent/evdns.c:2236-2290 | sent requests are counted and unmarked, choked ones stay marked; a broken socket takes the server down first, and exactly its unsent requests move if another is up |
| `Resolvers.Resolver.Up` | shadowsocks/src/main/jni/libevent/evdns.c:617-636 | the server counts as good again, once |
| `Resolvers.Resolver.AddServer` | shadowsocks/src/main/jni/libevent/evdns.c:2541-2553 | a new server follows the current one and counts as good |
| `Resolvers.Rehash` | shadowsocks/src/main/jni/libevent/evdns.c:3400-3408 | every request in flight ends in its bucket of the new table, none lost or doubled |
| `Resolvers.Resolver.SetMaxInflight` | shadowsocks/src/main/jni/libevent/evdns.c:3385-3414 | the new limit and table size, invariant kept |
| `Resolvers.Resolver.ClearAndSuspend` | shadowsocks/src/main/jni/libevent/evdns.c:2395-2458 | all requests wait, those from the buckets reset, in front and in reverse order; nothing in flight, no server left |
| `Resolvers.ReversedAt` | shadowsocks/src/main/jni/libevent/evdns.c:2427-2451 | reverse order: the place of each request |
| `Resolvers.RunResolver` | shadowsocks/src/main/jni/libevent/evdns.c:468-483 | after every run of submits, sends, finishes, failures, reissues, resizing and suspension: bucket lookup agrees with everything in flight, counters with lists, and ids are distinct |
| `GetAddrInfos.Request.Deliver` | shadowsocks/src/main/jni/libevent/evdns.c:4384-4567 | for every state in which a lookup can end: state freed exactly when no other lookup is open; the user told once: all addresses found, v4 before v6, else the error of the last lookup, by its kind |
| `GetAddrInfos.Request.TimeoutCb` | shadowsocks/src/main/jni/libevent/evdns.c:4318-4368 | exactly one lookup is late; the user is told the addresses or the error that the other brought, and the state is kept for the late one |
| `GetAddrInfos.Request.Cancel` | shadowsocks/src/main/jni/libevent/evdns.c:4752-4767 | every open lookup will end, and the user has not been told twice |
| `GetAddrInfos.BothAnswer` | shadowsocks/src/main/jni/libevent/evdns.c:4384-4567 | two lookups nobody interrupts, in either order: the user is told once, v4 addresses before v6, or those of the one that succeeded, or the error of the last |
| `GetAddrInfos.Run` | shadowsocks/src/main/jni/libevent/evdns.c:4318-4567 | for every order of results, timeout and cancel: one call of the user, one free |
| `EventMaps.WantedKinds` | shadowsocks/src/main/jni/libevent/evmap.c:265-342 | a kind counts as wanted if and only if some event on the descriptor asks for it |
| `EventMaps.Coalesce` | shadowsocks/src/main/jni/libevent/evmap.c:854-939 | adding to or deleting from a pending change keeps it the way from what the kernel was told to what is wanted |
| `EventMaps.EventMap.GetOrConstruct` | shadowsocks/src/main/jni/libevent/evmap.c:823-852 | the entry of the descriptor, through the inverse index, new at the end of the list if there was none |
| `EventMaps.EventMap.BackendAdd` | shadowsocks/src/main/jni/libevent/evmap.c:854-887 | batched: one entry of the list changes; at once: the kernel watches old and new kinds, or refuses |
| `EventMaps.EventMap.BackendDel` | shadowsocks/src/main/jni/libevent/evmap.c:889-939 | batched: one entry changes, an addition not yet made is taken back; at once: the kernel watches what is left; on a closed descriptor it fails exactly if something is left |
| `EventMaps.EventMap.Add` | shadowsocks/src/main/jni/libevent/evmap.c:265-342 | exact return value in terms of the counters; the event is in front of the list or nothing changed, also beyond 65535 events; belief about the kernel unchanged when batched |
| `EventMaps.EventMap.Del` | shadowsocks/src/main/jni/libevent/evmap.c:346-409 | exact return value, also on a closed descriptor; exactly the event leaves the list, even if the backend fails |
| `EventMaps.EventMap.RemoveAll` | shadowsocks/src/main/jni/libevent/evmap.c:767-786 | list and inverse index are empty together |
| `EventMaps.ApplyChanges` | shadowsocks/src/main/jni/libevent/epoll.c:357-374 | afterwards the kernel watches what each real change asks for, and elsewhere what it did |
| `EventMaps.EventMap.Dispatch` | shadowsocks/src/main/jni/libevent/epoll.c:415-520 | each descriptor is watched for exactly the kinds with a count above zero; whatever the kernel held before, if the change is not a net no-op |
| `EventMaps.EventMap.ReinitOne` | shadowsocks/src/main/jni/libevent/evmap.c:595-623 | one descriptor is told to the new instance again |
| `EventMaps.EventMap.Reinit` | shadowsocks/src/main/jni/libevent/evmap.c:641-653 | after a new epoll instance, belief and kernel agree on every descriptor |
| `EventMaps.BatchedEqualsImmediate` | shadowsocks/src/main/jni/libevent/evmap.c:854-939 | for every sequence of adds, deletes and dispatches, batching and immediate changes leave the kernel watching the same: for reading, writing and closing exactly the descriptors on which an event added and not deleted asks for it |
| `Epoll.TableFollowsRule` | shadowsocks/src/main/jni/libevent/epolltable-internal.h:124-1164 | all 512 rows are what the generating rule gives |
| `Epoll.ApplyOne` | shadowsocks/src/main/jni/libevent/epoll.c:268-355 | the "xxx" rows are not reached; a real change ends in the net interest whatever the kernel watched, through the retries; exact result on a closed descriptor |
| `EventQueues.HeapCovers` | shadowsocks/src/main/jni/libevent/event.c:3087-3122 | with nothing active, every pending timeout, common or not, has something in the heap that is no later |
| `EventBases.EventBase.InsertInserted` | shadowsocks/src/main/jni/libevent/event.c:3309-3323 | flag and counter together |
| `EventBases.EventBase.RemoveInserted` | shadowsocks/src/main/jni/libevent/event.c:3172-3183 | flag and counter together |
| `EventBases.EventBase.InsertActive` | shadowsocks/src/main/jni/libevent/event.c:3325-3344 | at the end of the queue of its priority, once; flags, queues and counters agree |
| `EventBases.EventBase.RemoveActive` | shadowsocks/src/main/jni/libevent/event.c:3184-3199 | out of that queue, the others untouched |
| `EventBases.EventBase.InsertLater` | shadowsocks/src/main/jni/libevent/event.c:3346-3361 | at the end of the later queue, unless already queued |
| `EventBases.EventBase.RemoveLater` | shadowsocks/src/main/jni/libevent/event.c:3200-3214 | out of the later queue |
| `EventBases.EventBase.RemoveTimeout` | shadowsocks/src/main/jni/libevent/event.c:3215-3235 | out of the heap or its common-timeout queue, which stays sorted |
| `EventBases.InsertInOrder` | shadowsocks/src/main/jni/libevent/event.c:3279-3307 | before everything that expires later and behind everything that does not |
| `EventBases.EventBase.InsertTimeout` | shadowsocks/src/main/jni/libevent/event.c:3363-3385 | into the heap or, in order, into its common-timeout queue |
| `EventBases.EventBase.Add` | shadowsocks/src/main/jni/libevent/event.c:2546-2716 | exact return value; the deadline is the time given or now and the delay; being active for an old timeout is forgotten; nothing changed on failure; no other event changes; every non-empty common-timeout queue keeps a timer in time |
| `EventBases.EventBase.Schedule` | shadowsocks/src/main/jni/libevent/event.c:1406-1413 | the timer of the queue is set to its first deadline, and no other queue loses its timer |
| `EventBases.EventBase.DelNolock` | shadowsocks/src/main/jni/libevent/event.c:2760-2844 | out of every queue, or untouched if finalizing |
| `EventBases.EventBase.Del` | shadowsocks/src/main/jni/libevent/event.c:2760-2844 | the same, keeping every common-timeout queue served |
| `EventBases.EventBase.ActivateNolock` | shadowsocks/src/main/jni/libevent/event.c:2951-2979 | queued once as active, taken from the later queue if it was there; exact result |
| `EventBases.EventBase.ActiveNolock` | shadowsocks/src/main/jni/libevent/event.c:2864-2913 | active unless finalizing; reasons accumulate while queued |
| `EventBases.EventBase.ActivateLater` | shadowsocks/src/main/jni/libevent/event.c:2981-2992 | queued once for later |
| `EventBases.EventBase.Cancel` | shadowsocks/src/main/jni/libevent/event.c:3013-3041 | out of every queue unless finalizing |
| `EventBases.EventBase.Finalize` | shadowsocks/src/main/jni/libevent/event.c:2238-2253 | out of every queue, then active and finalizing, once |
| `EventBases.EventBase.FinalizeMany` | shadowsocks/src/main/jni/libevent/event.c:2266-2298 | of the callbacks given exactly one stays queued, the running one or else the first; the others are in no queue; nothing else changes |
| `EventBases.EventBase.ExpireDue` | shadowsocks/src/main/jni/libevent/event.c:1427-1435 | exactly the due events of the queue, a prefix of it, are activated and removed; no other callback and no other queue changes |
| `EventBases.EventBase.CommonTimeoutCallback` | shadowsocks/src/main/jni/libevent/event.c:1418-1439 | the same, and afterwards the timer serves what is left; nothing else changes |
| `EventBases.EventBase.TimeoutNext` | shadowsocks/src/main/jni/libevent/event.c:3087-3122 | no wait exactly with no timeout pending; otherwise up to the earliest pending timeout over heap and all queues, or none if that is past |
| `EventBases.EventBase.ChooseWait` | shadowsocks/src/main/jni/libevent/event.c:1924-1933 | in every reachable state between callbacks: no time with work to do, and else exactly until the earliest deadline |
| `EventBases.EventBase.TimeoutProcess` | shadowsocks/src/main/jni/libevent/event.c:3125-3149 | exactly the events in the heap whose time has come are activated; invariant kept |
| `EventBases.DelayKept` | shadowsocks/src/main/jni/libevent/event.c:3125-3149 | an event added with a delay is activated by looking at the timeouts exactly from the end of the delay on |
| `EventBases.EventBase.PopActive` | shadowsocks/src/main/jni/libevent/event.c:1590-1620 | the first of the queue is run; it leaves all queues unless it is persistent, finalizing or no event; a timer taken to run still counts as serving its queue |
| `EventBases.EventBase.MakeLaterActive` | shadowsocks/src/main/jni/libevent/event.c:3387-3400 | all later callbacks go to the ends of their queues, in order |
| `EventBases.RunBase` | shadowsocks/src/main/jni/libevent/event.c:3883-3940 | after every run of a program and its loop, flags, queues and counters agree, and the wait chosen sleeps past no pending deadline |
| `EventBases.EventBase.InitCommonTimeout` | shadowsocks/src/main/jni/libevent/event.c:1443-1515 | the queue with this delay, an old one if there is, or none exactly beyond 256 |
| `TokenBuckets.CfgNew` | shadowsocks/src/main/jni/libevent/bufferevent_ratelim.c:142-173 | succeeds on exactly the configurations with 1 <= rate <= burst <= the 32-bit signed maximum, and keeps all four numbers |
| `TokenBuckets.Credit` | shadowsocks/src/main/jni/libevent/bufferevent_ratelim.c:93-105 | in wrapping 32-bit arithmetic, min(maximum, limit + n * rate) if and only if the limit was not above the maximum or the refill passes the maximum by the whole range |
| `TokenBuckets.RefundGrows` | shadowsocks/src/main/jni/libevent/bufferevent_ratelim.c:93-105 | a limit refunded above the maximum is not clipped by a tick: it grows, and at last turns negative |
| `TokenBuckets.ElapsedWraps` | shadowsocks/src/main/jni/libevent/bufferevent_ratelim.c:78-86 | wrapping tick numbers count right up to half their range, and count nothing beyond |
| `TokenBuckets.Update` | shadowsocks/src/main/jni/libevent/bufferevent_ratelim.c:73-111 | both limits credited for the elapsed ticks and capped; unchanged if time stood still or went back |
| `TokenBuckets.Init` | shadowsocks/src/main/jni/libevent/bufferevent_ratelim.c:49-71 | a new bucket holds one tick; reconfiguring only clips |
| `TokenBuckets.Conforms` | shadowsocks/src/main/jni/libevent/bufferevent_ratelim.c:73-111 | in any run that never overdraws, the limit stays between zero and the maximum, and bytes charged are at most maximum + credited ticks * rate |
| `TokenBuckets.ConformsOverTime` | shadowsocks/src/main/jni/libevent/bufferevent_ratelim.c:73-111 | in any run against the clock that never overdraws, bytes paid are at most maximum + ticks passed * rate, however tick numbers wrap |
| `TokenBuckets.RefilledWithin` | shadowsocks/src/main/jni/libevent/bufferevent_ratelim.c:73-111 | an uncharged bucket reaches the share a group waits for after exactly ceil((share - limit) / rate) ticks |
| `RateLimits.Suspend` | shadowsocks/src/main/jni/libevent/bufferevent.c:66-76 | the reason is added; the socket event is on exactly when enabled and no reason is left |
| `RateLimits.Unsuspend` | shadowsocks/src/main/jni/libevent/bufferevent.c:78-88 | the reason is removed; the same equivalence holds |
| `RateLimits.Bev.Enable` | shadowsocks/src/main/jni/libevent/bufferevent.c:459-480 | the same equivalence, reasons unchanged |
| `RateLimits.Bev.Disable` | shadowsocks/src/main/jni/libevent/bufferevent.c:550-563 | the same equivalence, reasons unchanged |
| `RateLimits.Bev.Charge` | shadowsocks/src/main/jni/libevent/bufferevent_ratelim.c:272-293 | suspended for bandwidth exactly when exhausted; a bandwidth suspension always has the refill timer pending |
| `RateLimits.Bev.UpdateBuckets` | shadowsocks/src/main/jni/libevent/bufferevent_ratelim.c:113-124 | credited as by an update, whether or not the tick changed |
| `RateLimits.Bev.RefillCallback` | shadowsocks/src/main/jni/libevent/bufferevent_ratelim.c:393-439 | exactly the directions with something to spend resume; the timer is pending exactly when one still waits |
| `RateLimits.Bev.SetRateLimit` | shadowsocks/src/main/jni/libevent/bufferevent_ratelim.c:559-636 | suspension matches the new bucket in both directions; removing the limit resumes both |
| `RateLimits.Bev.DecrementLimit` | shadowsocks/src/main/jni/libevent/bufferevent_ratelim.c:971-996 | the limit changes by the charge or refund; suspended exactly if exhausted, or if it already was suspended with a limit above zero; the timer follows |
| `RateLimits.SuspendAll` | shadowsocks/src/main/jni/libevent/bufferevent_ratelim.c:349-371 | exactly the members whose lock could be had are suspended |
| `RateLimits.UnsuspendAll` | shadowsocks/src/main/jni/libevent/bufferevent_ratelim.c:469-504 | every member has its turn once from any starting point; the result says whether a lock was missed |
| `RateLimits.Group.SuspendGroup` | shadowsocks/src/main/jni/libevent/bufferevent_ratelim.c:349-371 | the group is suspended and not pending, no member stranded |
| `RateLimits.Group.UnsuspendGroup` | shadowsocks/src/main/jni/libevent/bufferevent_ratelim.c:487-504 | pending exactly if a lock was missed; no member stranded, whatever locks were missed |
| `RateLimits.Group.Decrement` | shadowsocks/src/main/jni/libevent/bufferevent_ratelim.c:272-308 | an exhausted group is marked suspended, and only such a one; member and group are charged |
| `RateLimits.Group.DecrementLimit` | shadowsocks/src/main/jni/libevent/bufferevent_ratelim.c:1026-1044 | the flag changes exactly when the limit passes zero; an exhausted group stays suspended |
| `RateLimits.Group.GetMax` | shadowsocks/src/main/jni/libevent/bufferevent_ratelim.c:197-258 | zero for a suspended group, whose member then waits too, for nothing else; else the smaller of own limit and fair share, never negative |
| `RateLimits.Group.RefillCallback` | shadowsocks/src/main/jni/libevent/bufferevent_ratelim.c:528-557 | a group stays suspended exactly while its limit is below the share; pending only if a lock was missed; an exhausted group stays suspended if and only if the share is not zero or no limit is; members change only in waiting for the group |
| `RateLimits.Group.Join` | shadowsocks/src/main/jni/libevent/bufferevent_ratelim.c:735-765 | the new member will act on the state it saw of the group, and is not stranded in between |
| `RateLimits.Group.FinishJoin` | shadowsocks/src/main/jni/libevent/bufferevent_ratelim.c:763-780 | it acts on that state, whatever others did to the group since, and is not stranded |
| `RateLimits.Group.Remove` | shadowsocks/src/main/jni/libevent/bufferevent_ratelim.c:788-810 | gone from the group and no longer waiting for it; its other reasons stay |
| `RateLimits.Bev.Own` | shadowsocks/src/main/jni/libevent/bufferevent.c:66-88 | enabling, disabling, suspending, refilling, limiting, charging and decrementing keep a bufferevent sound and leave alone what its group sees |
| `RateLimits.RunBev` | shadowsocks/src/main/jni/libevent/bufferevent_ratelim.c:265-439 | after every run of those operations, an exhausted direction is off, and what bandwidth suspended has its refill event pending |
| `RateLimits.Group.MemberStep` | shadowsocks/src/main/jni/libevent/bufferevent_ratelim.c:393-439 | the same for a member: its group stays sound |
| `RateLimits.RunGroup` | shadowsocks/src/main/jni/libevent/bufferevent_ratelim.c:349-557 | under any interleaving of joining, leaving, spending, refilling, reconfiguring and missed locks, no member is stranded; unless some step sets the share to zero, an exhausted group is suspended |
| `RateLimits.RefillTicks` | shadowsocks/src/main/jni/libevent/bufferevent_ratelim.c:528-557 | a suspended group left alone is unsuspended by tick ceil((share - limit) / rate), not before and not later, whatever locks are missed; if that tick gets every lock no member waits |
| `RateLimits.ShareOfNothing` | shadowsocks/src/main/jni/libevent/bufferevent_ratelim.c:528-557 | with a share of zero, a refill unsuspends an exhausted group |
| `RateLimits.Group.SetMinShare` | shadowsocks/src/main/jni/libevent/bufferevent_ratelim.c:703-722 | the share is capped by both rates; refused exactly beyond the signed maximum |
| `RateLimits.Group.SetCfg` | shadowsocks/src/main/jni/libevent/bufferevent_ratelim.c:672-701 | limits clipped, share recomputed, invariant kept |
| `TagCodec.EncodeInt` | shadowsocks/src/main/jni/libevent/event_tagging.c:117-153 | the first nibble counts the others, which are the digits of any 32- or 64-bit number, lowest first and no more than needed |
| `TagCodec.IntRoundTrip` | shadowsocks/src/main/jni/libevent/event_tagging.c:315-373 | every number that fits survives encoding, whatever follows it |
| `TagCodec.DecodeNibbles` | shadowsocks/src/main/jni/libevent/event_tagging.c:338-350 | the value of the nibbles, without overflow |
| `TagCodec.EncodeTag` | shadowsocks/src/main/jni/libevent/event_tagging.c:173-194 | the groups of seven bits of any 32-bit tag, lowest first, all but the last marked, in at most five bytes |
| `TagCodec.TagRoundTrip` | shadowsocks/src/main/jni/libevent/event_tagging.c:196-242 | every 32-bit tag survives encoding, whatever follows it |
| `Tagging.DecodeTag` | shadowsocks/src/main/jni/libevent/event_tagging.c:196-242 | the tag at the front and, if asked, only its bytes drained; malformed or too long is refused |
| `Tagging.DecodeIntAt` | shadowsocks/src/main/jni/libevent/event_tagging.c:315-373 | the number at an offset, contents unchanged; malformed or too long is refused |
| `Tagging.Marshal` | shadowsocks/src/main/jni/libevent/event_tagging.c:256-263 | appends tag, length and data, each if there is room; the item is there if and only if there is room for all of it |
| `Tagging.ItemParts` | shadowsocks/src/main/jni/libevent/event_tagging.c:256-263 | an item is its tag, its length and its data |
| `Tagging.MarshalInt` | shadowsocks/src/main/jni/libevent/event_tagging.c:276-297 | the same for the item whose data is the encoded number |
| `Tagging.PeekLength` | shadowsocks/src/main/jni/libevent/event_tagging.c:401-417 | reports the whole length of the item and changes nothing |
| `Tagging.UnmarshalHeader` | shadowsocks/src/main/jni/libevent/event_tagging.c:437-451 | succeeds exactly if tag, length and data are all there, and removes the first two |
| `Tagging.Consume` | shadowsocks/src/main/jni/libevent/event_tagging.c:453-462 | removes exactly the bytes that peeking announced |
| `Tagging.Unmarshal` | shadowsocks/src/main/jni/libevent/event_tagging.c:466-480 | removes exactly one item and hands out exactly its data |
| `Tagging.UnmarshalInt` | shadowsocks/src/main/jni/libevent/event_tagging.c:484-534 | the number in an item with the wanted tag; the item is removed |
| `Tagging.IntItem` | shadowsocks/src/main/jni/libevent/event_tagging.c:484-534 | what was marshalled as a 32- or 64-bit number is what is read |
| `Tagging.StreamRoundTrip` | shadowsocks/src/main/jni/libevent/event_tagging.c:256-480 | marshalling any list of items that fit a chain each and a buffer together, and unmarshalling until the buffer is empty, gives the list back |
| `Tagging.KnownStream` | shadowsocks/src/main/jni/libevent/event_tagging.c:256-297 | a tagged byte and a tagged number, byte by byte |
| `Arc4.SwapPerm` | shadowsocks/src/main/jni/libevent/arc4random.c:425-437 | a swap keeps the state a permutation |
| `Arc4.StepInjective` | shadowsocks/src/main/jni/libevent/arc4random.c:425-437 | no step loses information: the state before is determined by the state after |
| `Arc4.Stream.constructor` | shadowsocks/src/main/jni/libevent/arc4random.c:96-105 | the identity permutation |
| `Arc4.Stream.AddRandom` | shadowsocks/src/main/jni/libevent/arc4random.c:107-122 | the state stays a permutation of 0 to 255; it is the old one mixed with the data 256 times; j ends at i |
| `Arc4.AroundAndAround` | shadowsocks/src/main/jni/libevent/arc4random.c:107-122 | the data is taken from its first byte on, and again after its last |
| `Arc4.MixedNext` | shadowsocks/src/main/jni/libevent/arc4random.c:107-122 | each step mixes in byte n modulo the length of the data |
| `Arc4.Stream.GetByte` | shadowsocks/src/main/jni/libevent/arc4random.c:425-437 | i moves on by one, j by what i points at, the two places change, and the byte is read where their sum points; the state stays a permutation |
| `Arc4.LeastIs` | shadowsocks/src/main/jni/libevent/arc4random.c:530-540 | the bound for rejection, in wrapping 32-bit arithmetic, is 2 to the 32 modulo the upper bound |
| `Arc4.Unbiased` | shadowsocks/src/main/jni/libevent/arc4random.c:522-555 | every number below the bound has the same number of accepted words |
| `Arc4.Uniform` | shadowsocks/src/main/jni/libevent/arc4random.c:522-555 | the first word not rejected, reduced; zero below two |

## Left out

- Pinned, multicast, file-segment and sendfile chains, callbacks on buffers, `evbuffer_commit_space`, writing to descriptors: they widen the invariant without a harder theorem.
- Memory: allocation always succeeds, freeing a chain is dropping it from the list, and a chain's block is a field of fixed length of the chain rather than memory behind its header. The memory under a reference chain is assumed not to change.
- Locks, threads and notification, except that an attempt to lock a bufferevent may fail and that joining a rate-limit group is two steps.
- System calls: the kernel is a map from descriptors to watched kinds with a set of closed ones; `readv` is any split of its bytes over the vectors; clocks and random choices are parameters or unconstrained choices.
- `EvbufferRead.Read`: the variant for systems without vectored reads is left out.
- The 64-bit builds (`arm64-v8a`, `x86_64`): there `evtag_consume` keeps a length in an `int`, which is extended with its sign for payloads of 2 to the 31 or more.
- `Chains.Chain.constructor`: does not refuse sizes above `EVBUFFER_CHAIN_MAX` less the header (buffer.c:161); like any failure to allocate, that is left out.
- `Evbuffers.Evbuffer.Add`: leaves out the same refusal, which fails the call without changing the contents. `Tagging.StreamRoundTrip` therefore asks for payloads that fit a chain; `evtag_marshal` ignores the failure and loses a larger one.
- `Evbuffers.Evbuffer.CopyOut`: the call with a position is `EvbufferSearch.CopyOutFrom`.
- `Evbuffers.Evbuffer.RemoveBuffer`: asks for a source without holes; the first remark says why.
- `Evbuffers.Evbuffer.Drain`, `Evbuffers.Evbuffer.Pullup`: what these and the other operations do to a buffer whose cached length has wrapped is left out.
- `Evbuffers.Evbuffer.AddReference`: asks for a non-empty block. An empty one is an empty read-only chain, and by `Chains.PrependedSlot` a later prepend to such a buffer leaves the slot wrong.
- `EvbufferRuns.Run`: passes over the prepend of an empty block before a read-only chain, and references and moves that would make a cached length wrap.
- `EvbufferSearch.SetPtr`, `EvbufferSearch.SearchRange`, `EvbufferSearch.SearchEol`: offsets are numbers without bound; in the source they are signed, so these are right for buffers of less than 2 to the 31 bytes.
- `EvbufferSearch.PtrMemcmp`: the sign of the comparison is not modelled, only equality, which is all its callers use.
- `DnsNames.ToLabels`: asks for a message of at most 16384 bytes when a table is used, since pointers have 14 bits; the one caller with a table passes 1500.
- `DnsMessages.AddQuestions`: names with empty labels do not come back, see `DnsNames.DottedStem`; answers, authority and additional sections of a response use the same calls and are left out, as is the limit of 512 bytes.
- `Tagging.DecodeTag`: the byte after the first five of an overlong tag is refused without being read.
- `Resolvers.Resolver.PickId`: asks for fewer than 65535 requests in flight; the source would draw for ever. `Resolvers.Resolver.SetMaxInflight` keeps to that bound.
- `Tagging.Unmarshal`: hands its payload out; the call of `evbuffer_add` on the destination is `Evbuffers.Evbuffer.Add`.
- Probes of failed servers, search domains, resolv.conf and hosts files, server ports, timers of single requests, shutdown. `Resolvers.RunResolver` has sequences where the source has the circles of `CircularLists`.
- `GetAddrInfos.Request.Deliver`: shutdown and failure to allocate an answer are left out.
- Edge-triggered events and signals in the interest map; poll, select, kqueue and Windows backends.
- `EventBases.EventBase.Add`: waking another thread and the wait for a running signal callback are left out; the backend's answer is a parameter. The heap is a set with a minimum.
- `event_persist_closure`'s choice of the next time, limits on callbacks per turn, priorities changed later, debug checks.
- `RateLimits.Bev.Charge`, `RateLimits.Bev.DecrementLimit`, `RateLimits.Group.Decrement`, `RateLimits.Group.DecrementLimit`: charges do not overflow the signed limit and refunds do not pass the maximum; `TokenBuckets.RefundGrows` shows that beyond it the limit would turn negative with nothing suspended.
- A bufferevent still connecting keeps its write event when suspended; that exception is not modelled.
- Seeding of the generator from the operating system, and reseeding after a number of bytes.
