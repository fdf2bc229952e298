# A model of c-db-k8s

A Dafny model, with proofs, of the parts of this C system that hold its invariants: the open-addressing hash map,
DNS name compression and the record codec, the start-up protocol of the launcher, the key/value store with its two
backends, the byte buffer with the line reader and the socket output path, the IPv6 text codec, and the resolver's
result array. `dafny verify dfyconfig.toml` checks everything.

Where the source changes things in place the model does too: classes with their fields, arrays, loops with
invariants, each proved against a function on values; the laws are then proved of those functions.

| files | what they model |
|---|---|
| `Bits`, `Probing`, `HashMap`, `HashMapRuns` | the hash map: linear probing, doubling, backward-shift deletion |
| `Bytes`, `DnsName`, `DnsWire`, `DnsDeepNames` | names with compression (section 4.1.4 of RFC 1035) |
| `DnsRecord`, `DnsRoundTrip`, `DnsFullStore`, `DnsCodec` | records, runs of records, the string store, and the encoder and decoder as they work |
| `Launcher` | parent, children and their pipes, as a state machine over descriptor tables |
| `Chains`, `Entries`, `Arena`, `Store`, `StoreRuns`, `StoreHash` | chained buckets over heap records or the file's arena |
| `RwBuf`, `Lines`, `Sock` | the byte queue, line reading, output with partial writes |
| `Ip6Text` | addresses as text (sections 4.1 and 4.2 of RFC 5952) |
| `ResultArray` | the two-ended result array and its pass in place |

The world outside is a parameter and every answer of it is allowed for: the allocator (`alloc`), the sizes of reads
(`Reader.cut`), the kernel's answers to writes (`Kernel.answers`), what lies in memory past the end of a record
(`over`), and in the launcher the order of steps, the exits and the failures.

Where the code and its comments differ, the model follows the code:

- the store compares a key with as many bytes of the record as the key has, whatever the record's own key length
  (`src/db.c:117`, `src/db.c:141`, `src/db.c:165`); it answers as a map exactly for keys of which none, if it can
  be stored, is a proper prefix of another in its bucket (`StoreRuns.PrefixFreeExactly`), and "a" and "aji" are two
  for which it does not (`StoreHash.Confused`);
- the decoder follows 17 jumps, one more than its constant of 16 (`src/dns_proto.c:366`); `DnsName.DecodeReads`;
- a full result array answers 0, which is also an index, not -1 (`src/dns_resolv.c:271`); `ResultArray.Result.AddIpPort`;
- a child that waits for go sees end of file when the parent is gone only if no other child holds the descriptors of
  the fork (`src/lau_child.c:324-337`); `Launcher.OrphanReads`;
- the second name of an SOA record that does not fit the string store goes unnoticed and is left a null pointer, here
  `[]` (`src/dns_proto.c:722-768`); `DnsRoundTrip.RecordRoundTrip` says exactly when, `DnsFullStore.NameLost` gives a
  packet.

## Model

| member | source | states |
|---|---|---|
| `Probing.ProbeFinds` | src/hashmap_impl.h:148-163 | a probe that stops on the key or on an empty bucket stops on the key, with its value, if and only if the key is in the map |
| `Probing.InsertAt` | src/hashmap_impl.h:133-144 | filling the empty bucket where a probe stopped adds exactly one association, and every other key stays reachable |
| `Probing.ReplaceAt` | src/hashmap_impl.h:133-144 | writing over a value keeps the table and changes one association |
| `Probing.EmptyExists` | src/hashmap_impl.h:67-76 | a table that is not full has an empty bucket, so the probe and shift loops end |
| `Probing.BackshiftTestIsCyclic` | src/hashmap_impl.h:190-201 | the branchless shift test, the same test by cases, and "home outside the cyclic interval (hole, n]" are one and the same for all indices |
| `Probing.ShiftMove` | src/hashmap_impl.h:209-219 | one move of the deletion keeps every key, its value and its reachability except through the new hole |
| `Probing.ShiftSkip` | src/hashmap_impl.h:209-219 | an entry that is not moved is not probed through the hole |
| `Probing.ShiftedRemoves` | src/hashmap_impl.h:204-223 | for any hash and any wrap-around, the whole backward shift leaves exactly the old map without the removed key, every other key reachable from its home and none twice |
| `HashMap.HashMap.constructor` | src/hashmap_impl.h:10-25 | a zeroed structure is a sound empty map |
| `HashMap.HashMap.Attach` | src/hashmap_impl.h:94-109 | a static buffer is taken if and only if its size is a power of two and at least four; then the map is empty and sound, otherwise nothing changes |
| `HashMap.TestPow2` | src/hashmap_impl.h:94-98 | `c & (c - 1)` is zero exactly for powers of two |
| `HashMap.HashMap.Resize` | src/hashmap_impl.h:38-77 | growing keeps the map exactly and makes room; it is refused for a static buffer, by the allocator or for too many bits, and then nothing changes |
| `HashMap.HashMap.Grow` | src/hashmap_impl.h:124-128 | asking for one bucket more either makes room under the threshold or changes nothing |
| `HashMap.Rehash` | src/hashmap_impl.h:50-66 | re-inserting every entry of a table into an empty larger one represents the same map, entry by entry |
| `HashMap.Place` | src/hashmap_impl.h:54-64 | one re-insertion adds one association to the new table |
| `HashMap.HashMap.Probe` | src/hashmap_impl.h:133-143 | the probe ends on the key or on an empty bucket, and never comes back to its start |
| `HashMap.HashMap.Put` | src/hashmap_impl.h:124-145 | the map gains exactly the association, under growth too; the end index comes back exactly when growth is needed and refused or the key is reserved, and then the map is unchanged |
| `HashMap.HashMap.Get` | src/hashmap_impl.h:148-163 | an index is found if and only if the sanitized key is in the map, and it holds its value |
| `HashMap.HashMap.Rem` | src/hashmap_impl.h:204-223 | removing an occupied bucket takes its key, and nothing else, out of the map |
| `HashMap.ShiftBack` | src/hashmap_impl.h:209-219 | the in-place loop computes the backward shift |
| `HashMap.HashMap.Del` | src/hashmap_impl.h:226-231 | deleting by key: the map without the key, and whether it was there |
| `HashMap.HashMap.Set` | src/hashmap_impl.h:248-253 | writing a value through an index changes one association |
| `HashMap.HashesStayInTable` | src/hashmap.h:97-107 | both Fibonacci hashes always name a bucket of the table |
| `HashMapRuns.Run` | src/hashmap_impl.h:38-253 | over every run of put, get and del, of rem and set at the index a get gives, and of rem and set at any index there is a key at, growth included: each reply is the one a finite map gives and the final table represents that map; a put is refused exactly when it needs growth that a static buffer, the allocator or the largest size denies, or is of the reserved key; after each step every key is in one bucket, get and set move none, and an operation at an index names and acts on the key there |
| `HashMapRuns.ScanMeets` | src/hashmap_impl.h:233-245 | so a scan of all indices while nothing moves meets each key of the map exactly once |
| `HashMapRuns.PutStored` | src/hashmap_impl.h:124-145 | so a put of an ordinary key is stored: with memory to be had while the map is under three quarters of 2^31, in a static buffer while it is under three quarters of the buffer |
| `DnsName.Encode` | src/dns_proto.c:1282-1326 | for any string of up to 253 bytes, well formed or not, at most two bytes more than its length are written, and the suffix table never outgrows 32 entries |
| `DnsName.Decode` | src/dns_proto.c:354-414 | total on arbitrary bytes, by the measure (jumps left, bytes left): the text fits its room with the terminator, and the offset moves strictly forward and never past the packet |
| `DnsName.PtrReadsBack` | src/dns_proto.c:1289-1296 | a pointer leads back to the offset it was made from if and only if that offset is below 0x4000 |
| `DnsName.EncodeSpells` | src/dns_proto.c:1282-1326 | the packet spells the name where it was encoded, in exactly the bytes written, through pointers that lead strictly backwards to non-empty labels; and every suffix recorded on the way is spelled at its offset |
| `DnsName.HopsAtMostLabels` | src/dns_proto.c:354-414 | reading a spelled name takes at most as many jumps as it has labels |
| `DnsName.DecodeReads` | src/dns_proto.c:354-414 | decoding a spelled name gives the name up to case and stops at its end if and only if it takes at most 17 jumps; otherwise it reports too many jumps |
| `DnsWire.AddNameOk` | src/dns_proto.c:1282-1326 | appending a well-formed name keeps every recorded suffix spelled, so pointer chains stay acyclic |
| `DnsWire.NamesRoundTrip` | src/dns_proto.c:354-414 | for every run of well-formed names below 0x4000, even with the suffix table full, decoding at each name of at most 17 labels gives it up to case and stops where the next begins |
| `DnsDeepNames.DeepNamesFail` | src/dns_proto.c:364-366 | from 18 labels on the round trip fails: for each n from 18 to 127, the most a name can have, a run of well-formed names encodes and its last name, of n labels, does not decode |
| `DnsRoundTrip.RecordRoundTrip` | src/dns_proto.c:624-1013 | for A, AAAA, NS, CNAME, PTR, SOA and TXT: decoding an encoded record, from any packet that continues it, gives type, class, ttl and data back, names up to case and the root as ".", and ends where the next record begins, if and only if the string store has room for all its names; if not, a SOA record of which all but the second name fits comes back without an error and without that name, and everything else is refused for want of space |
| `DnsRoundTrip.RecordsRoundTrip` | src/dns_proto.c:624-1013 | as many consecutive `dns_rr_decode` calls as records were encoded give all of them back, each call landing on the next record, if and only if the string store has room for all their names |
| `DnsRoundTrip.RecordSound` | src/dns_proto.c:1426-1546 | a record, its length patched in afterwards, keeps every recorded suffix spelled |
| `DnsRoundTrip.FixedBack` | src/dns_proto.c:652-659 | type, class, ttl and the patched length are read back |
| `DnsRoundTrip.DataFieldBack` | src/dns_proto.c:660-985 | the data of each type is read back from a packet that keeps its bytes, with the same three outcomes |
| `DnsRoundTrip.StrsBack` | src/dns_proto.c:867-895 | TXT strings are read back one by one if the store has room for all of them, and are refused otherwise |
| `DnsFullStore.RecordFits` | src/dns_proto.c:1426-1546 | a well-formed record is encoded into every packet with room for it, in at most that room |
| `DnsFullStore.NameLost` | src/dns_proto.c:722-768 | an input on which the second name is lost: a TXT record of eight strings and a SOA record, both well formed, are encoded after any header, such as one that counts an answer and an authority record, and both decode without an error, the SOA record with an empty second name |
| `DnsCodec.Encoder.EncodeName` | src/dns_proto.c:1282-1326 | the loop writes exactly the encoding, in place, and touches nothing beyond length + 2 bytes |
| `DnsCodec.Encoder.MkSpace` | src/dns_proto.c:1341-1351 | space is reserved if and only if it fits the buffer |
| `DnsCodec.Encoder.RetSpace` | src/dns_proto.c:1329-1338 | space is returned unless more is returned than there is |
| `DnsCodec.Encoder.AddNameField` | src/dns_proto.c:1388-1401 | reserve, encode, return the rest: the packet grows by the encoding and nothing else |
| `DnsCodec.Encoder.AddQuestion` | src/dns_proto.c:1368-1386 | the same for a question |
| `DnsCodec.Encoder.AddItems` | src/dns_proto.c:1341-1401 | over a whole run of names and questions, well formed or not, the packet never exceeds its buffer and no return of space fails |
| `DnsCodec.Encoder.AddMem` | src/dns_proto.c:1403-1410 | bytes are appended, or nothing |
| `DnsCodec.Encoder.AddTxt` | src/dns_proto.c:1413-1423 | counted strings are appended in order |
| `DnsCodec.Encoder.AddRecordField` | src/dns_proto.c:1426-1546 | the method builds the record that the round trip is about, length patched in place |
| `DnsCodec.Decoder.DecodeName` | src/dns_proto.c:354-414 | the jumping loop computes the decoding, and moves the offset past the name |
| `DnsCodec.Decoder.NextStored` | src/dns_proto.c:587-621 | a name is fixed up, stored in the string store if it fits, and the offset moved |
| `DnsCodec.Decoder.NextStrs` | src/dns_proto.c:867-895 | the TXT loop |
| `DnsCodec.Decoder.NextRecord` | src/dns_proto.c:624-1013 | the decoder method reads the record that the round trip is about |
| `Launcher.StepInv` | src/lau_child.c:184-366 | every step of the parent or of a child keeps the invariant: who holds which pipe end, which bytes are in flight, how far each process is |
| `Launcher.RunInv` | src/launcher.c:199-264 | so it holds in every state of every interleaving |
| `Launcher.GoAfterReady` | src/launcher.c:199-213 | in-order start: in every interleaving a child has its go byte only when every earlier child has written its ready byte |
| `Launcher.NoGoAfterFailure` | src/launcher.c:199-213 | in-order start: once a child is gone without its ready byte, no later child ever gets go |
| `Launcher.WaitHolders` | src/lau_child.c:265-268 | while the parent waits for a child, the other holders of that ready pipe are earlier children that have sent ready and can close their descriptors now |
| `Launcher.EofArrives` | src/ns_util.c:170-200 | if the child goes without its ready byte, then as soon as each earlier child has closed its descriptors or gone, the read can return, and with end of file |
| `Launcher.WaitProgress` | src/launcher.c:190-231 | the wait never deadlocks: the parent can read, or the awaited child can step, or an earlier child can close its descriptors |
| `Launcher.RunBound` | src/launcher.c:216-264 | no launch of n children takes more than 11 n + 2 steps |
| `Launcher.LaunchCompletes` | src/launcher.c:199-264 | a launch with no step left, whose parent has met no error, has every ready byte received, whoever died: each child runs, or is gone after it was ready; in order or in parallel |
| `Launcher.OrphanReads` | src/lau_child.c:324-337 | with the parent gone, a waiting child sees end of file if and only if no other child still has the descriptors of the fork |
| `Launcher.StrandedForever` | src/lau_child.c:324-337 | two children that wait when the parent goes keep each other waiting in every continuation in which neither is killed |
| `Launcher.StrandedReachable` | src/launcher.c:249-264 | and that state is reached, for any number of children and any two of them |
| `Chains.Swapped` | src/db.c:165-176 | a record put in the place of another, in the middle of a chain or at its head, leaves every chain of every bucket linked, acyclic and complete |
| `Chains.Pushed` | src/db.c:180-187 | so does a record put at the head of its bucket |
| `Chains.Unlinked` | src/db.c:117-124 | so does a record taken out |
| `Entries.FindRight` | src/db.c:134-146 | the search, which compares as many bytes as the key has, is right if and only if no other matching record comes before the key's own |
| `Entries.MatchIsPrefix` | src/db.c:134-146 | a record matches a key only if one of the two keys is a prefix of the other |
| `Entries.PrefixMatches` | src/db.c:134-146 | and a key always matches the records whose keys it is a prefix of |
| `Entries.GetIsMap` | src/db.c:134-146 | a get answers as a map does under that condition, and with another key's value otherwise |
| `Entries.PutValue` | src/db.c:156-188 | a set changes one key of the map under that condition |
| `Entries.PutLoses` | src/db.c:156-188 | otherwise it throws another key's value away |
| `Entries.DelValue` | src/db.c:109-131 | a delete takes one key out of the map under that condition |
| `Entries.DelLoses` | src/db.c:109-131 | otherwise it takes another key out |
| `Arena.AddPacked` | src/db.c:69-83 | a record put where the arena ends overlaps no other and stays within the file |
| `Arena.ReachableIsLive` | src/db.c:97-106 | a record is reachable from some bucket if and only if its delete flag is clear |
| `Store.Store.constructor` | src/db.c:275-284 | a new file, or a new heap table, is empty and sound |
| `Store.Store.CreateRec` | src/db.c:69-95 | a record is made if and only if it fits the file, or the allocator gives one; the arena stays packed and counted |
| `Store.Store.DelRec` | src/db.c:97-106 | flagged in the file, freed on the heap; the counts agree |
| `Store.Store.HashSearch` | src/db.c:134-146 | the chain walk finds the first matching record |
| `Store.Store.Seek` | src/db.c:156-178 | the walk with a pointer to the link stops at the link to the first matching record |
| `Store.Store.HashPut` | src/db.c:156-188 | set: replaced in place or put at the head; if there is no room the store is as it was, the old value included |
| `Store.Store.HashDel` | src/db.c:109-131 | delete: unlinked in place |
| `Store.Store.FileCheck` | src/db.c:191-223 | for any file whose chains end, whatever the flags, keys and places of its records, the check accepts if and only if the mark and version are right and every record of every chain lies within the file; it accepts every state the store reaches |
| `Store.Store.ValidEnds` | src/db.c:191-223 | the chains of a store in use end |
| `Store.Store.Deinit` | src/db.c:294-309 | every record on the heap is freed, once |
| `StoreRuns.Run` | src/db.c:109-188 | over every run of sets, gets and deletes, whatever the keys, every reply is determined: a set is refused exactly when the file has no room for it after the sets accepted before, or the allocator gives nothing; the chains, the arena and the counts stay sound |
| `StoreRuns.PrefixFreeRuns` | src/db.c:109-188 | over keys of which none is a proper prefix of another in its bucket, every run answers as a map |
| `StoreRuns.PrefixConfuses` | src/db.c:134-146 | a set of a longer key, then a get of a prefix of it in the same bucket, answers with the longer key's value |
| `StoreRuns.LongerConfuses` | src/db.c:134-146 | a set of a key without a value, then a get of a longer key that begins with it in the same bucket, answers with the value of the shorter one if the bytes after the record go on as the longer key does |
| `StoreRuns.PrefixFreeExactly` | src/db.c:109-188 | every run of a new store over a set of keys answers as a map, for all values and whatever lies past the records, if and only if no key that can be stored is a proper prefix of another key of its bucket; every key can be stored on the heap, and in the file those that fit it |
| `StoreRuns.FitExactly` | src/db.c:69-83 | the first n operations are all accepted by the file if and only if the records they make fit in what is left of it |
| `StoreRuns.BackendsAgree` | src/db.c:69-106 | heap and file give the same replies to the first n operations if and only if the records they make fit in what is left of the file |
| `StoreHash.HashKey` | src/hashmap.h:60-73 | the loop computes DJB2a with 64-bit wrap-around |
| `StoreHash.SharedBucket` | src/db.c:63-66 | under that hash the keys "a" and "aji" share bucket 12461 |
| `StoreHash.Confused` | src/db.c:134-146 | so in a new store, in a file or on the heap, a set of "aji" and then a get of "a", which was never set, answers with the value of "aji" |
| `RwBuf.RwBuf.MkSpace` | src/rwbuf.c:53-94 | space is made if and only if it can be, by shifting or by growing to the aligned size; the contents stay |
| `RwBuf.RwBuf.Write` | src/rwbuf.c:97-106 | all of it is appended, or nothing |
| `RwBuf.RwBuf.Writev` | src/rwbuf.c:109-122 | the vectors are appended in order, or nothing |
| `RwBuf.RwBuf.Readline` | src/rwbuf.c:125-190 | the line up to the first line feed less one carriage return, the fragment at end of file, or nothing; and what is left |
| `RwBuf.RwBuf.RdInc` | src/rwbuf.h:128-144 | refused only past the end of the array: bytes are dropped from the front, and the buffer stays sound if and only if it held that many |
| `RwBuf.IovsLen` | src/rwbuf.h:146-155 | the length of the concatenation |
| `Lines.PiecesWhole` | src/rwbuf.c:125-190 | the pieces of the reference split put together again are the file |
| `Lines.PiecesCut` | src/rwbuf.c:125-190 | and they are cut after the line feeds and nowhere else |
| `Lines.WithinIsSplit` | src/dns_resolv.c:367-392 | a reader with a buffer gets the batch split if and only if every line with its terminator fits and a last fragment is shorter; otherwise the lines before the first that does not |
| `Lines.ReadLine` | src/dns_resolv.c:367-392 | for all sizes of reads, one call gives the next line of the file, end of file, or an error exactly for a line that does not fit or a failed read |
| `Lines.ReadAll` | src/dns_resolv.c:367-392 | for every content and all sizes of reads, repeated calls give the batch split if everything fits |
| `Sock.Sock.WriteData` | src/sock.c:420-465 | whatever the kernel takes: the count is what was delivered, or the code of the answer that stopped the write, and the error flag is set for hard errors only |
| `Sock.Sock.WriteIovs` | src/sock.c:468-528 | the vectors keep exactly the bytes that were not delivered; count, codes and flag as above |
| `Sock.Advance` | src/sock.c:511-523 | the inner loop drops exactly the bytes written from the vectors |
| `Sock.Sock.WriteMem` | src/sock.c:533-538 | appended whole, or not at all and the socket is in error |
| `Sock.Sock.WriteLine` | src/sock.c:547-562 | the line and CR LF appended whole, or not at all and the socket is in error |
| `Sock.Sock.Send` | src/sock.c:565-584 | delivered and pending together stay the same |
| `Sock.Run` | src/sock.c:420-584 | for any interleaving of appends and sends and any partial writes, the bytes delivered and then the bytes pending are everything that was appended with success |
| `Ip6Text.ToHex` | src/str_util.h:80-91 | lower-case hexadecimal |
| `Ip6Text.HexShort` | src/str_util.h:80-91 | without leading zeros |
| `Ip6Text.HexToNibble` | src/str_util.h:103-107 | the branchless digit value is right for digits of both cases |
| `Ip6Text.ZeroRun` | src/str_util.c:157-187 | the first of the longest runs of two or more zero fields, or none |
| `Ip6Text.WriteText` | src/str_util.c:204-216 | the loop writes the shortened text |
| `Ip6Text.Encode` | src/str_util.c:151-228 | for every address: the text is shortened at that run, fits the buffer with its terminator, and decodes to the address |
| `Ip6Text.TextReadsBack` | src/str_util.c:57-133 | decoding the text of any address gives the same bytes and uses the whole text |
| `Ip6Text.DecodeInto` | src/str_util.c:57-133 | on any text the decoder stays within its sixteen bytes and computes the scan, the gap moved open in place |
| `ResultArray.Result.AddIpPort` | src/dns_resolv.c:267-291 | the two ends never overlap and each family keeps its order of arrival; a full array takes nothing and answers 0 |
| `ResultArray.BringForward` | src/dns_resolv.c:338-357 | the loop in place, slot by slot, overwritten sources included |
| `ResultArray.Result.Fixup` | src/dns_resolv.c:326-360 | IPv6 entries in order, then the IPv4 entries that stay in order of arrival, mapped if asked, whenever num_ip6 + 2 num_ip4 <= max_addr + 1 |
| `ResultArray.RoomyExactly` | src/dns_resolv.c:338-341 | that bound is exact: the pass is right for all addresses if and only if it holds |

## Left out

- HashMap.HashMap.Attach: the buffer is zeroed and has at most 2^31 buckets, as its callers provide it.
- HashMap.HashMap.Resize: is asked for at least one bucket, and for more than there are unless the table is empty, as its callers do; a table of 2^32 or more buckets counts as a failed allocation.
- HashMap.HashMap.Rem: is asked for an occupied bucket, or for an index past the end; a caller with an index of its own looks for a key there first, as the runs do.
- Hash maps with string keys: the proofs for integer keys are for any hash that names a bucket.
- DnsName.Encode: labels of 256 bytes or more, whose length the code keeps in eight bits; the message's string store gives at most 253.
- DnsCodec.Encoder.EncodeName: strings are at most 253 bytes, the size the message's string store gives.
- DnsRoundTrip.RecordRoundTrip: packets are shorter than 0xFFF0 bytes, since the decoder keeps the end of the data in 16 bits; names are well formed, of at most 17 labels and without zero bytes, TXT strings of at most 253 bytes and without zero bytes. The destination record is fresh, with no strings in it yet.
- DnsRoundTrip.RecordsRoundTrip: the section loop (`src/dns_proto.c:1067-1078`) is not modelled; it stops at the first nonzero return of `dns_rr_decode`, which returns a positive length for a record it loads (`src/dns_proto.c:1012`).
- HINFO, MX, SRV and OPT records (`DnsRecord.ReadRData` answers `Unmodelled`): what is reserved and what is read differ, so there is no round trip to prove.
- Headers, question decoding, whole messages and their return codes, and all message text.
- Launcher: mounts, namespaces, network set-up, privileges and signals; a failure of any of them is a step in which the process gives up or exits. Half of a pipe pair made before a failure is not tracked.
- Store: keys are shorter than 2^31 bytes, as their length reaches the hash in an `int`, and keys and values shorter than 2^64 bytes in all, so sizes do not wrap; the opening and mapping of the file.
- Store.Store.FileCheck: a damaged file with a circular chain, on which the check does not end, or with links to no record.
- RwBuf: sizes do not wrap at 2^64.
- Lines.ReadLine: the file is open and the buffer is not empty; a closed descriptor answers 0 at once.
- Sock: receiving, `sock_send_mem` and `sock_send_line`, opening and closing.
- Ip6Text.Encode: with IP6_STR_NOIPV4 only; texts with an embedded IPv4 address are not written.
- Ip6Text.DecodeInto: a text with a dot is only recognised as such (`Dotted`); the embedded IPv4 address is not read.
- ResultArray: `res_add_ip` and `res_add_addr`, which only call `res_add_ip_port` once per protocol.
- The resolver's poll loop, cache and services table, the server's event loop, the client, logging, command lines and build files.
