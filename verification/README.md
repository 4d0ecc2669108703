# A model of CoreKube in Dafny

CoreKube is a stateless 4G/5G core: workers keep no state of their own and take everything they know about a
subscriber from CoreKubeDB. Its companion Nervion emulates base stations (eNBs) and subscribers (UEs), and the Yagra
library reports metrics of the workers to a bus. This project models the hand-written logic of these programs and
proves what each piece is for. `dafny verify dfyconfig.toml` checks all of it.

- **SHA-256 and HMAC** (`Sha256Spec`, `Sha256Constants`, `ByteCounter`, `Sha256Context`, `Hmac`). FIPS 180-4 is stated
  on its own, without reference to the implementation, and its constants are proved to be the roots of primes that the
  standard says they are. The streaming context, with its word buffer filled by OR, its big-endian bit counter with
  ripple carry and its write index recomputed from the counter, is proved to compute it for every message and every
  way of splitting the message into calls. On top of it the keyed hash is proved to be HMAC-SHA256 as section 2 of RFC
  2104 defines it.
- **The control-plane action language** (`ActionLanguage`, `ActionValidator`, `ActionCompiler`, `ActionText`). A
  validator, a compiler to bytes and an interpreter in another language. The validator accepts exactly the well-formed
  programs that a five-state automaton over the actions walks through; in runs of accepted programs detaching is
  undone by attaching and going idle by coming back; every program can be written down, is read as what it is, and the
  interpreter does what the text says, forever, if and only if the numbers fit their 24-bit fields.
- **CoreKubeDB and its client** (`HashTable`, `HashMap`, `Records`, `DbProtocol`, `CoreKubeDb`, `LibCk`, `DbTheorems`,
  `DbFields`, `DbIntent`, `DbIdentities`, `DbReplies`, `DbClient`). The chained hash table refines a first-wins map
  although it can hold a hash twice. The request analyser refines a meaning on maps and byte strings. What the client
  encodes is read back exactly, and requests sent back to back are served one by one. What `db_access` hands to its
  caller is what the caller gave last for a field, or the count since, exactly unless that is a PDN IP other than the
  stored one or a NAS count other than zero. Every subscriber of a loaded file is found by its IMSI, MSIN and TMSI in
  every reachable state, and by its stored MME-UE-S1AP-ID exactly unless the last one pushed is not that of loading.
- **NAS counters of stateless workers** (`NasCounter`, `NasUplink`, `NasRegistration`). A state machine over the
  database requests of any number of concurrent messages, each request taken as atomic, which is an assumption (see
  below). In every run two fetches give the same key and count exactly when the same KAMF was in force for both and
  the counting of both has arrived at the same number modulo 256; so it is known exactly when two protected downlink
  messages share a MAC input. They do after every further registration; they do not as long as no KAMF is installed
  twice or fetched for more than 256 times. `NasRegistration` takes a registration through both of its database
  accesses: the KAMF is derived from the key, OPc and RAND of the subscriber's line, and is in force with a count of
  zero.
- **Roles of the RAN controller** (`ThreadGrants`, `RoleAllocation`, `RoleSafety`, `RoleCompletion`, `RoleProgress`,
  `RoleWaiting`, `RanController`). The three locked sections of the message handler as atomic steps of concurrent
  handlers. A role is never given twice without an error message in between, and free again after one, whatever
  arrives; and without errors, as many slaves as pods are created get every role exactly once, nobody is refused, and
  every run can be carried on to that end. A slave is sent its UE only after the eNB of the UE has reported that it
  runs.
- **Metrics** (`Aggregation`, `Yagra`, `MetricsWire`, `MetricsBus`, `MetricsTheorems`). Aggregation of observations in
  a batch, the text and the framing of messages, and the bus that reads them from a stream: what was observed is what
  the bus sees. A batch has one entry a metric if and only if every observation after the first uses the registered
  name.

`Arithmetic`, `Bytes`, `Decimals`, `Slices` and `Counting` hold small shared facts.

## Where the code is not what one might expect

The model follows the code in each of these cases, and where a promise is broken it states when it holds.

- `hashmap_add` does not look at the last node of a chain of two or more nodes, so a second addition of that hash is
  linked behind it (`HashTable.LastNodeIsOverlooked`). Lookups never notice.
- The README of CoreKubeDB speaks of two hash tables, keyed by IMSI and by TMSI. The code has one, keyed by the last
  nine digits of the IMSI, and derives the TMSI from that key.
- libck writes the two NAS counters at byte 1 of a push record while the server reads byte 6, so a pushed count
  arrives only if the buffer held it already (`DbIntent.PushedValueArrives`, `DbIntent.CounterGetsLost`). The workers
  push zero over a zeroed buffer.
- libck forms push records of `PDN_IP`, but that case is commented out in the server (corekubeDB.c:395-397), while a
  pull of `PDN_IP` is answered. A pushed PDN IP is dropped, and a pull still gives the one derived from the IMSI at
  loading (`DbIntent.PdnIpIsDropped`). `DbIntent.PushedValueArrives`, `DbIntent.PushThenPull` and `DbClient.DbAccess`
  say for every item when a pushed value comes back; only `PDN_IP` and the two NAS counters can fail to.
- The PDN IP is made of the low 16 bits of the table key, so subscribers whose last nine digits agree modulo 2^16
  share it (`DbIdentities.SharedPdnIps`).
- The stored MME-UE-S1AP-ID can be pushed, but the server looks a subscriber up by its table key. Once another number
  is pushed, the stored one leads to no record or to that of another subscriber (`DbIdentities.IdentitiesReachRecord`,
  `DbIdentities.PushedIdLeadsNowhere`).
- `db_buffer_input_size` is one byte short: EOM is stored behind the request and never sent. The request is still
  understood when nothing follows it (`DbTheorems.WorkerRequest`), and merges with whatever does follow
  (`DbTheorems.WorkerRequestsMerge`).
- `sha256_initialize` clears 17 words of a 16-word buffer; the 17th is the first state word, which is set right after.
  The model clears the buffer only.
- `nas_5gs_security_encode` puts the sequence number into the header before it fetches missing keys, so the byte is
  zero when the message it answers was not checked (`NasCounter.SequenceNumbers`).
- CoreKubeDB counts the uplink messages that are checked, but puts that count into byte 1 of the reply, while the
  worker reads bytes 3 to 6 (nas_security.c:307). Every message is checked with an uplink count of zero, right only
  when the number of checked messages since the last installation is zero modulo 256 (`NasUplink.CheckedWithZero`). A
  failed check is only logged.
- Every further registration of a subscriber re-uses a MAC input. RAND is pulled and never drawn anew, the SQN is
  fixed to zero, so the same KAMF is derived (`NasCounter.RegistrationRepeatsKamf`), and installing it sets the count
  back to zero: both security mode commands are authenticated with the same KAMF and count
  (`NasCounter.EveryRegistrationReuses`, with a run in `NasCounter.RegisteringAgainReuses`).
- A database request is one step of the model, but corekubeDB.c runs one thread a client without a mutex and reads and
  writes a counter in two steps (corekubeDB.c:503-510). Two requests for one subscriber that interleave there can get
  the same count; the theorems on NAS counters hold when requests of one subscriber do not overlap.
- A delay of 2^24 - 1 seconds is compiled to the bytes of `inf` and ends the program
  (`ActionCompiler.LargestDelayStops`).
- `yagra_observe_metric` recognises a repeated metric by the address of its name. Callers that pass a string literal,
  as the workers do, therefore get one entry an observation and no aggregation (`Aggregation.LiteralsPileUp`; the
  exact condition is `Aggregation.OneEntryExactly`).
- A metric whose name is longer than 63 bytes is announced to the bus under its whole name, but observations under
  that name are refused; it is found under the first 63 bytes (`Yagra.DefinedIsFound`).
- The bus reads at most 1024 bytes of a body, whatever length the message announces, and looks for the next message in
  what is left (`MetricsTheorems.DefinitionFramed`, `MetricsTheorems.BatchFramed`). Messages of the client have at
  most 512 bytes.
- A metric of type NONE observed again through its registered name while it leads the batch replaces the whole list,
  while the number of metrics goes on counting (`Aggregation.LastLoses`, `Aggregation.CountStaysRight`).

## Soundness of the proofs

Every lemma over which Dafny would otherwise attempt induction by itself is marked `{:induction false}`: the induction
is in the body. There are no assumptions, no bodiless members and no attributes that switch checks off.

## Model

| member | source | states |
|---|---|---|
| Sha256Context.Context.Initialize | ran-emulator/source/crypto.c:506-519 | after it the context stands for the empty message |
| Sha256Context.Context.Ripple | ran-emulator/source/crypto.c:534-537 | the carry loop increments the more significant counter bytes as one number and leaves the others alone |
| Sha256Context.Context.AddLength | ran-emulator/source/crypto.c:524-539 | the eight counter bytes, read big-endian, grow by exactly eight times the length modulo 2^64 |
| Sha256Context.LengthBitsAreDigits | ran-emulator/source/crypto.c:527-533 | the shifted and masked length is the base-256 digit of the bit length that belongs to counter byte i |
| Sha256Context.IndexFromCounter | ran-emulator/source/crypto.c:542 | bytes 6 and 7 of a counter holding 8n give n modulo 64 |
| Sha256Context.Context.NextIndex | ran-emulator/source/crypto.c:542-543 | the write index is the number of bytes already absorbed modulo 64, at every turn of the loop |
| Sha256Context.AppendByte | ran-emulator/source/crypto.c:546 | OR-ing a byte into its lane of the zero-filled tail is appending it |
| Sha256Context.Context.FillBuffer | ran-emulator/source/crypto.c:544-547 | absorbs exactly the bytes up to the end of the block or the message, each in its own slot |
| Sha256Context.Context.Schedule | ran-emulator/source/crypto.c:568-585 | computes the message schedule of section 6.2.2 of FIPS 180-4 and empties the buffer |
| Sha256Context.Context.RunRounds | ran-emulator/source/crypto.c:586-613 | the 64 rounds of section 6.2.2 of FIPS 180-4 |
| Sha256Context.MixingIsFips | ran-emulator/source/crypto.c:578-604 | the shifted-or mixing expressions are the functions of section 4.1.2 of FIPS 180-4 |
| Sha256Context.Context.CompressBuffer | ran-emulator/source/crypto.c:548-622 | a full buffer becomes one more hashed block and an empty buffer |
| Sha256Context.Context.Update | ran-emulator/source/crypto.c:521-624 | keeps the invariant (state is the fold over full blocks, buffer the zero-filled tail, counter the bit length) for the message extended by the input |
| Sha256Context.CounterByte | ran-emulator/source/crypto.c:632 | counter byte i is byte i of the 64-bit length block, for every length |
| Sha256Context.Context.Terminator | ran-emulator/source/crypto.c:628-632 | the terminator is the padding of section 5.1.1 of FIPS 180-4 for everything absorbed |
| Sha256Context.Context.Finalize | ran-emulator/source/crypto.c:626-638 | the digest is SHA-256 of everything absorbed and the last part |
| Sha256Spec.HashBlocksPrefix | ran-emulator/source/crypto.c:540-623 | the hash value of the blocks so far does not depend on input that follows |
| Sha256Constants.FirstPrimes | ran-emulator/source/crypto.c:551-566 | the list behind the constants holds exactly the primes below 312, in order, and they are 64 |
| Sha256Constants.RoundConstants | ran-emulator/source/crypto.c:551-566 | round constant i is the first 32 bits of the fractional part of the cube root of prime i (section 4.2.2 of FIPS 180-4) |
| Sha256Constants.InitialHash | ran-emulator/source/crypto.c:510-517 | word i of the initial hash value is the first 32 bits of the fractional part of the square root of prime i (section 5.3.3 of FIPS 180-4) |
| Hmac.Get | ran-emulator/source/crypto.c:640-646 | the one-shot digest is SHA-256 of the message |
| Hmac.HashInParts | ran-emulator/source/crypto.c:521-638 | any number of updates ended by finalize give SHA-256 of the concatenation |
| Hmac.HmacContext.Initialize | ran-emulator/source/crypto.c:659-676 | for every key, also longer than a block, the masked key is absorbed |
| Hmac.HmacContext.FlipKey | ran-emulator/source/crypto.c:688 | in place, the ipad-masked key becomes the opad-masked key |
| Hmac.HmacContext.Finalize | ran-emulator/source/crypto.c:683-693 | the digest is HMAC-SHA256 of the key given at initialisation and the whole text |
| Hmac.KeyedDigest | ran-emulator/source/crypto.c:695-702 | sha_256 is HMAC-SHA256 of section 2 of RFC 2104, for every key and message |
| ActionLanguage.SplitJoin | ran-emulator/ran_controller/UserInput.py:72 | splitting at a separator and joining again is the identity, and no piece contains the separator |
| ActionValidator.EvenTest | ran-emulator/ran_controller/UserInput.py:111-112 | from a legal counter, rejecting a nonzero even sum is leaving the five states -3, -1, 0, 1 and 3 |
| ActionValidator.Validate | ran-emulator/ran_controller/UserInput.py:71-120 | accepts a string exactly if it alternates actions and delays, starts with the only init, its actions walk through the five-state automaton, and it ends at home or in inf |
| ActionValidator.BalancedIsWalk | ran-emulator/ran_controller/UserInput.py:28-41 | the counter stays within its five values and returns to zero exactly when the automaton, written per action, can make every move and returns home |
| ActionValidator.LegalSumsPair | ran-emulator/ran_controller/UserInput.py:28-41 | legal counters force each state change to undo the open one: detach or detach_switch_off and an attach, move_to_idle and move_to_connected |
| ActionValidator.RunSums | ran-emulator/source/ue_emulator.c:1025-1049 | in every run, over any number of rounds, the counter is legal and equals the program's at that place |
| ActionValidator.AcceptedRunsPair | ran-emulator/ran_controller/UserInput.py:71-120 | in every run of an accepted program the actions that change the state come in pairs that undo each other, with only X2 and S1 handovers inside |
| ActionCompiler.SerializeAction | ran-emulator/ran_controller/UserInput.py:127-140 | one byte for a plain action; code, 24-bit eNB number and a zero byte for the others |
| ActionCompiler.Serialize | ran-emulator/ran_controller/UserInput.py:122-153 | for accepted strings the bytes are the records of the commands up to the first inf |
| ActionCompiler.ControlPlane | ran-emulator/source/ue_emulator.c:1009-1050 | the two nested loops, watched for n turns, do what n turns of the machine do, never reading outside a record |
| ActionCompiler.OneTurn | ran-emulator/source/ue_emulator.c:1028-1048 | at the record of command k one turn carries out that command and stops or moves to the next record |
| ActionCompiler.CompiledRun | ran-emulator/source/ue_emulator.c:974-1049 | for every program and number of turns the interpreter follows the source with its numbers cut to 24 bits, at record boundaries |
| ActionCompiler.CompilerCorrect | ran-emulator/source/ue_emulator.c:974-1049 | interpreter and source agree for every number of turns if and only if every reachable delay is below 2^24 - 1 and every eNB number below 2^24 |
| ActionCompiler.LargestDelayStops | ran-emulator/source/ue_emulator.c:1041-1045 | the delay 2^24 - 1 ends the program although the source goes on |
| ActionText.NumeralRoundTrip | ran-emulator/ran_controller/UserInput.py:134-152 | every number is read back from its decimal digits |
| ActionText.NumeralAgain | ran-emulator/ran_controller/UserInput.py:80-152 | digits without a leading zero are the decimal digits of the number read from them |
| ActionText.NumberBytes | ran-emulator/ran_controller/UserInput.py:134-152 | the three bytes written for a number in text hold it modulo 2^24, in a delay and behind an action's name |
| ActionText.NameBytes | ran-emulator/ran_controller/UserInput.py:28-41 | the byte of each name of the first table |
| ActionText.NumberedNameBytes | ran-emulator/ran_controller/UserInput.py:37-41 | the byte, the three number bytes and the zero of each name of the special table |
| ActionText.SourceRoundTrip | ran-emulator/ran_controller/UserInput.py:71-153 | the string of any program is read as that program if and only if its first action, and only it, is an init |
| ActionText.SourceAccepted | ran-emulator/ran_controller/UserInput.py:71-120 | the string of a program is accepted if and only if that is so and the automaton walks through the program |
| ActionText.SourceRuns | ran-emulator/source/ue_emulator.c:974-1049 | from text to behaviour: the interpreter on the serialized string does what the program says, for every number of turns, if and only if all numbers it reaches fit |
| HashTable.FirstAddedWins | corekube-db/source/hashmap.c:62-128 | after every run of additions, for every bucket function, a lookup finds the first entry ever added with its hash, or nothing |
| HashTable.ChainsStaySparse | corekube-db/source/hashmap.c:81-110 | in every run a chain holds only its bucket's hashes, equal hashes are neighbours, and the head's hash is unique |
| HashTable.SparseMeansAtMostTwice | corekube-db/source/hashmap.c:81-110 | so no hash occurs three times in a chain |
| HashTable.LastNodeIsOverlooked | corekube-db/source/hashmap.c:98-107 | a chain of two nodes accepts the hash of its last node again |
| HashMap.HashMap.constructor | corekube-db/source/hashmap.c:21-41 | an empty table stands for the empty map |
| HashMap.HashMap.Add | corekube-db/source/hashmap.c:62-111 | on linked nodes: the map keeps the first entry of a hash, ERROR is returned exactly if a node before the last has the hash, and then the hash was present |
| HashMap.HashMap.Get | corekube-db/source/hashmap.c:113-128 | NULL exactly if the hash is not in the map, otherwise the node with its entry |
| HashMap.HashMap.Write | corekube-db/source/corekubeDB.c:377-433 | a write through the pointer of a lookup that keeps the hash changes exactly that entry of the map |
| Records.GetSet | corekube-db/source/user.c:37-62 | a copy into one field of the flat record changes that field and no other |
| Records.StructLayout | corekube-db/source/user.c:28-62 | the fields follow each other in the order of the struct without gaps and fill it |
| Records.SameNineDigits | corekube-db/source/user.c:295-315 | the hash of an identity depends on its nine last digits only |
| Records.HashIsNumber | corekube-db/source/user.c:295-299 | the hash of a 15-digit IMSI is the number that its last nine digits write |
| Records.HashTellsDigits | corekube-db/source/user.c:295-299 | two IMSIs have the same hash if and only if they have the same last nine digits |
| Records.AtoiReads | corekube-db/source/user.c:298 | atoi skips blanks, takes a sign and the decimal digits up to any other byte |
| Records.CompleteKeepsKey | corekube-db/source/user.c:246-263 | completing a record keeps its IMSI, keys and all fields that are not derived; TMSI, MME-UE-S1AP-ID and uplink TEID are the key in big-endian, the PDN IP is 172.16.0.1 plus its low 16 bits, and RAND is drawn |
| Bytes.Pack32RoundTrip | corekube-db/source/user.c:10-21 | unpacking a packed 32-bit number gives it back |
| Bytes.Unpack32RoundTrip | corekube-db/source/user.c:10-21 | packing an unpacked one gives the bytes back |
| CoreKubeDb.Server.LoadUser | corekube-db/source/corekubeDB.c:166-182 | a loaded subscriber is completed and added under its key unless the key is taken |
| CoreKubeDb.Server.LoadUsers | corekube-db/source/corekubeDB.c:187-208 | the lines of a file are loaded one after the other |
| CoreKubeDb.Server.PushItem | corekube-db/source/corekubeDB.c:376-453 | one push record has its meaning on the two maps |
| CoreKubeDb.Server.WriteReply | corekube-db/source/corekubeDB.c:465-606 | one pull item puts its defined bytes into its reply slot and touches no byte outside that slot |
| CoreKubeDb.Server.PullEffect | corekube-db/source/corekubeDB.c:503-550 | counters pulled go up modulo 256, RAND_UPDATE draws a new RAND, all else stays |
| CoreKubeDb.Server.IdentifySubject | corekube-db/source/corekubeDB.c:299-360 | the record found is that of the subject the identifier bytes denote |
| CoreKubeDb.Server.AnalyzeRequest | corekube-db/source/corekubeDB.c:286-614 | for every request that stays inside its buffers: bytes consumed, response length, reply slots and both tables are those of the request's meaning; an unknown identifier is skipped and answered by a zero byte |
| CoreKubeDb.Server.AttendRequest | corekube-db/source/corekubeDB.c:638-660 | a received buffer is served as the sequence of its requests, and the loop ends |
| LibCk.AddIdentifier | libck/source/libck.c:58-82 | 17 identifier bytes, or nothing for an unknown kind |
| LibCk.PushItem | libck/source/libck.c:84-168 | one push record over what the buffer held, or nothing for an item it does not know |
| LibCk.PushItems | libck/source/libck.c:170-208 | the identifier, 17 bytes or nothing for an unknown kind, and behind it the push records of all supported items in order |
| LibCk.PullItems | libck/source/libck.c:216-244 | the separator, the pull items with the eNB number after GET_ENB, and EOM |
| LibCk.ExtractDbValues | libck/source/libck.c:246-342 | every member points behind the code of the last reply slot that carries it, and no carried member is missing |
| LibCk.DbRequest | corekube5g-worker/source/db_accesses.c:57-93 | for all lists of items, known or not, the bytes sent are the first of what is formed in a zeroed buffer, as many as db_buffer_input_size says |
| LibCk.DbRequestIsBody | corekube5g-worker/source/db_accesses.c:57-65 | for a known identifier, supported pushes and byte-sized pulls these are the encoded request without its EOM |
| LibCk.FormedLength | corekube5g-worker/source/db_accesses.c:57-65 | what is formed is as long as announced, with the EOM behind it, if and only if the identifier and all pushes are of a known kind |
| DbProtocol.CodesCount | libck/include/libck.h:21-54 | the item codes are the enumeration counted from 1 |
| DbTheorems.RequestRoundTrip | corekube-db/source/corekubeDB.c:371-614 | an encoded request in front of any bytes is consumed exactly, its pushes are applied in order, then its pulls, with 17 bytes a pull |
| DbTheorems.IdentifyByPrefix | corekube-db/source/corekubeDB.c:299-329 | only the 17 identifier bytes decide the subject |
| DbTheorems.Pipelined | corekube-db/source/corekubeDB.c:638-660 | a buffer of any number of encoded requests is served exactly as the requests one after another |
| DbTheorems.WorkerRequest | corekube5g-worker/source/db_accesses.c:57-65 | a request without EOM has the same meaning when nothing follows it |
| DbTheorems.WorkerRequestsMerge | corekube5g-worker/source/db_accesses.c:57-65 | whatever else follows it is taken for further pull items, and these are exactly the pulls read from the bytes that follow |
| DbFields.FieldsHoldLastTaken | corekube-db/source/corekubeDB.c:375-610 | after any number of requests of any subscribers a field holds the value that the server last took for it, except the four that pulls change |
| DbFields.OthersUntouched | corekube-db/source/corekubeDB.c:375-610 | requests about others leave a record alone entirely |
| DbIntent.PushedValueArrives | libck/source/libck.c:84-168 | for every item that libck can push: the server stores the value given if and only if it is not a PDN IP other than the stored one, and not a NAS count other than byte 6 of the buffer |
| DbIntent.ArrivesAlways | libck/source/libck.c:84-168 | a pushed value arrives whatever was stored and whatever the buffer held, if and only if the item is none of these three |
| DbIntent.CounterGetsLost | libck/source/libck.c:115-122 | a count of one over a zeroed buffer is stored as zero |
| DbIntent.PdnIpIsDropped | corekube-db/source/corekubeDB.c:395-397 | a request that pushes a PDN IP other than the stored one and pulls it is answered with the stored one |
| DbIntent.FieldsHoldGiven | corekube-db/source/corekubeDB.c:375-453 | after any requests of any subscribers a field holds the value last given for it if and only if it is not the PDN IP, or none was given, or the stored one was; the PDN IP never changes |
| DbIntent.AnswersHoldGiven | corekube-db/source/corekubeDB.c:375-610 | every reply to any request after them gives back the value last given, be it in that request, under exactly that condition |
| DbFields.ReplyHoldsField | corekube-db/source/corekubeDB.c:475-594 | the reply to a pull of a field starts with its code and the whole field |
| DbFields.ServingRunsAll | corekube-db/source/corekubeDB.c:638-660 | serving a buffer of requests one after another leaves the database that running all of them leaves |
| DbFields.AnswerHolds | corekube-db/source/corekubeDB.c:465-606 | in a request with any pushes and pulls, the k-th reply holds the code and the field as the pushes of that request left it |
| DbFields.AnswersHoldLastTaken | corekube-db/source/corekubeDB.c:375-610 | after any requests of any subscribers, every reply to any request holds the value last taken for its field |
| DbIntent.PushThenPull | corekube-db/source/corekubeDB.c:375-610 | for every item: a pull, anywhere in any request after a push, with any requests in between that give no other value, returns the pushed value if and only if the item is not PDN_IP or the value was stored already |
| DbIntent.PushThenCount | corekube-db/source/corekubeDB.c:398-406 | for every counter: the pull shows the pushed count plus the pulls in between, modulo 256, if and only if it is the next hop chaining count or the buffer held the count at byte 6 |
| DbFields.CountersCount | corekube-db/source/corekubeDB.c:503-548 | after any requests a counter is the value last pushed for it plus the pulls since that count it up, modulo 256 |
| DbFields.AnswerCounts | corekube-db/source/corekubeDB.c:503-548 | the reply to a pull of a counter holds the count with the pulls before it in its request |
| DbIdentities.LoadingKeepsLoaded | corekube-db/source/user.c:246-263 | loading keeps every record at its key with its TMSI |
| DbIdentities.FileContents | corekube-db/source/corekubeDB.c:166-182 | a loaded file leaves exactly the hashes of its lines, each with the first line of that hash, completed with its own RAND |
| DbIdentities.FileLines | corekube-db/source/corekubeDB.c:166-182 | in terms of digits: one record for each nine last digits, at the number they write, made of the first line with them |
| DbIdentities.RequestsKeepLoaded | corekube-db/source/corekubeDB.c:375-610 | no run of requests changes the IMSI, the key or the TMSI of a record |
| DbIdentities.IdentitiesReachRecord | corekube-db/source/corekubeDB.c:299-323 | IMSI, MSIN and stored TMSI lead to the same record; the stored MME-UE-S1AP-ID does if and only if it still is the one of loading |
| DbIdentities.PushedIdLeadsNowhere | corekube-db/source/corekubeDB.c:378-380 | after a push of a number that is no key, the stored MME-UE-S1AP-ID is refused |
| DbIdentities.EverySubscriberFound | corekube-db/source/corekubeDB.c:299-323 | for every file and any requests after loading it: each of its IMSIs is found, at the number of its last nine digits, with the IMSI and keys of the first line that has these digits; by the stored MME-UE-S1AP-ID if and only if no other was given last |
| DbIdentities.EveryLineFindsItself | corekube-db/source/corekubeDB.c:299-323 | when the lines of a file differ in their last nine digits, every line finds its own record |
| DbIdentities.SharedPdnIps | corekube-db/source/user.c:260 | in every such state two subscribers have the same PDN IP if and only if the numbers of their last nine digits agree modulo 2^16 |
| DbFields.RandIsDrawn | corekube-db/source/corekubeDB.c:545-550 | after any requests the RAND of each subscriber is the one drawn last for it, and RAND_UPDATE alone draws |
| DbReplies.RepliesTellLine | corekube-db/source/corekubeDB.c:465-545 | in every state after a file and any requests, pulls of KEY, OPC, IMSI and MSIN are answered with those of the subscriber's line, pulls of TMSI, EPC_TEID and PDN_IP with what its last nine digits make |
| DbReplies.RepliesTellRand | corekube-db/source/corekubeDB.c:541-550 | pulls of RAND and RAND_UPDATE are answered with the RAND drawn last, by any earlier request or pull |
| DbReplies.LongReplies | corekube-db/source/corekubeDB.c:490-501 | the three IP replies copy 7, 8 and 9 bytes: the field and the first bytes of the next one |
| DbReplies.SocketReplies | corekube-db/source/corekubeDB.c:587-594 | the socket replies copy on to the end of the record |
| DbReplies.PeekedCount | corekube-db/source/corekubeDB.c:511-524 | the pull without increment answers the same as the one with it and changes nothing; the latter counts that one count up |
| DbReplies.EnbIsFound | corekube-db/source/corekubeDB.c:435-447 | after any requests GET_ENB is answered with the socket of the first new eNB of that number, or with nothing behind the item |
| DbReplies.EnbMayAsk | corekube-db/source/corekubeDB.c:435-447 | a new eNB may pull exactly the items whose reply takes nothing from a record, and push exactly those that no field takes |
| DbClient.ExtractedValue | libck/source/libck.c:246-342 | the member extracted from the answer to any request points at the value last taken for its field |
| DbClient.ExtractedCount | libck/source/libck.c:246-342 | the member of a counter points at its count after the request's pushes and earlier pulls |
| DbClient.ExtractedOwn | libck/source/libck.c:246-342 | the members of IMSI, MSIN and RAND point at the identity, and at the RAND drawn last before that pull |
| DbClient.DbAccess | corekube5g-worker/source/db_accesses.c:9-55 | from arguments to values: the server carries out the request, none of the members is missing, each field or counter pulled is the value its arguments give, or else the stored one plus the pulls, if and only if it is not a PDN IP other than the stored one or a NAS count other than zero, and IMSI, MSIN and RAND are those of the subscriber; for an unknown subscriber nothing changes |
| NasCounter.FetchReads | corekube5g-worker/source/nas_security.c:226-314 | a fetch reads the current KAMF and downlink count and leaves the count one higher modulo 256 |
| NasCounter.InstallWrites | corekube5g-worker/source/nas_registration_request.c:64 | installing a KAMF resets the downlink count in the same request |
| NasCounter.HarmlessKeeps | corekube5g-worker/source/nas_security_mode_complete.c:93 | a request that names neither the KAMF nor the downlink count changes neither, nor do requests of other subscribers |
| NasCounter.AnswerKeeps | corekube5g-worker/source/nas_security.c:7-101 | encoding the one response, with held or newly fetched keys, keeps every message to a fetch of its own |
| NasCounter.StepKeeps | corekube5g-worker/source/nas_handler.c:12-53 | every step of every message, installing a KAMF again included, keeps the invariant over keys, counts, fetches and MACs |
| NasCounter.KeysRepeat | corekube5g-worker/source/nas_security.c:226-314 | in every run two fetches agree in KAMF and count if and only if the same KAMF was installed for both and their counts, from the start of each installation, agree modulo 256 |
| NasCounter.CountsReused | corekube5g-worker/source/nas_security.c:59-93 | in every run no two protected downlink messages use the same KAMF and count if and only if none of their fetches clash in this way |
| NasCounter.NoCountReused | corekube5g-worker/source/nas_security.c:59-93 | so it is enough that no KAMF is installed twice and none is fetched for more than 256 times |
| NasCounter.SequenceNumbers | corekube5g-worker/source/nas_security.c:51-87 | the sequence number sent is the count of the MAC if and only if the answered message was checked or the count is zero, under every KAMF, also the one in force at the start |
| NasCounter.AnsweredOnce | corekube5g-worker/source/nas_handler.c:12-53 | whatever comes later, a message is answered once |
| NasUplink.UplinkRead | corekube5g-worker/source/nas_security.c:304-311 | the fourth reply of a fetch holds the stored uplink count in byte 1, and the bytes that are read hold zero |
| NasUplink.UplinkCounted | corekube-db/source/corekubeDB.c:511-518 | in every run the stored uplink count is the number of checked messages received since the last installation modulo 256 |
| NasUplink.CheckedWithZero | corekube5g-worker/source/nas_security.c:136-159 | in every run a message is checked with an uplink count of zero, which is the stored count if and only if that number is zero modulo 256 |
| NasCounter.RegistrationRepeatsKamf | corekube5g-worker/source/nas_registration_request.c:34-55 | whatever requests come between, none of which draws a new RAND, a registration derives the KAMF of the one before |
| NasCounter.EveryRegistrationReuses | corekube5g-worker/source/nas_registration_request.c:34-64 | from any state, with any steps between two registrations, both security mode commands are authenticated with the same KAMF and count |
| NasCounter.RegisteringAgainReuses | corekube5g-worker/source/nas_registration_request.c:52-64 | a run of two registrations and two fetches in which that happens |
| NasRegistration.Register | corekube5g-worker/source/nas_registration_request.c:34-64 | through two database accesses: the KAMF is derived from the subscriber's OPc, key and RAND, is stored, and is in force with a count of zero; for an unknown subscriber nothing changes |
| NasRegistration.KamfOfLine | corekube5g-worker/source/nas_registration_request.c:34-55 | in every state after a file and any requests that KAMF comes from the OPc and key of the subscriber's line and the RAND drawn last for it |
| ThreadGrants.GrantsConserve | ran-emulator/ran_controller/ran_controller.py:297-304 | the grants sum to the number of UEs, each is between 1 and the threads a container, and there are as many as pods are created |
| ThreadGrants.GrantedAndLeft | ran-emulator/ran_controller/ran_controller.py:297-304 | at any time granted and remaining UEs add up to all |
| ThreadGrants.NoUes | ran-emulator/ran_controller/ran_controller.py:297-304 | without UEs there is one grant of no threads but no pod to take it |
| RanController.RanController.constructor | ran-emulator/ran_controller/ran_controller.py:171-195 | everything is stopped and all UEs are to be handed out |
| RanController.RanController.TakeEnb | ran-emulator/ran_controller/ran_controller.py:257-283 | the first stopped eNB, and only it, becomes pending |
| RanController.RanController.GrantThreads | ran-emulator/ran_controller/ran_controller.py:294-325 | a grant exactly for an init message in the mode with UEs left, of the right size |
| RanController.RanController.TakeUe | ran-emulator/ran_controller/ran_controller.py:335-343 | the first stopped UE, and only it, becomes pending |
| RanController.RanController.Analyze | ran-emulator/ran_controller/ran_controller.py:244-390 | a handler that is not interrupted reaches the state and outcome of its atomic steps |
| RoleSafety.StepKeepsSafe | ran-emulator/ran_controller/ran_controller.py:257-456 | every step, spurious status and error messages included, keeps held roles out of the pool |
| RoleSafety.GivenAgainAfterReturn | ran-emulator/ran_controller/ran_controller.py:403-456 | in every run, between two gifts of one role lies an error message about it |
| RoleSafety.StepFrees | ran-emulator/ran_controller/ran_controller.py:244-470 | a step frees a role exactly when it is its error message, and takes it exactly when it gives it or its slave reports |
| RoleSafety.ReturnedIsFree | ran-emulator/ran_controller/ran_controller.py:403-456 | after an error message a role is free until it is given or claimed again, whatever else comes |
| RoleSafety.FirstFreeIsGiven | ran-emulator/ran_controller/ran_controller.py:257-343 | and the next handler is given the first free role of its kind |
| RoleSafety.RunKeepsRecorded | ran-emulator/ran_controller/ran_controller.py:244-390 | in every run a given role is with the handler it was given to, and no handler gets two |
| RoleSafety.RunKeepsServed | ran-emulator/ran_controller/ran_controller.py:348-380 | in every run a slave is sent a UE exactly if the UE has an eNB |
| RoleCompletion.ThreadsAreLeft | ran-emulator/ran_controller/ran_controller.py:294-304 | an init message past the eNB section always finds threads to grant |
| RoleCompletion.UesAreLeft | ran-emulator/ran_controller/ran_controller.py:335-343 | a handler in the UE section always finds a UE |
| RoleCompletion.StepKeeps | ran-emulator/ran_controller/ran_controller.py:257-390 | every orderly step keeps the counts of handlers and taken roles equal |
| RoleCompletion.NobodyRefused | ran-emulator/ran_controller/ran_controller.py:381-390 | in every interleaving with one slave a pod, one message a granted thread and no errors, CODE_ERROR is never sent |
| RoleCompletion.EveryRoleOnce | ran-emulator/ran_controller/ran_controller.py:257-390 | when all slaves are dealt with, every eNB and every UE was given exactly once, to different handlers |
| RoleCompletion.EveryUeServed | ran-emulator/ran_controller/ran_controller.py:348-380 | then some slave was sent each UE that has an eNB, at a step before which that eNB had reported and not failed since |
| RoleWaiting.ConnectedIsReported | ran-emulator/ran_controller/ran_controller.py:392-423 | in every run an eNB is connected exactly when it has reported that it runs and no error message has come since |
| RoleWaiting.WaitEnds | ran-emulator/ran_controller/ran_controller.py:348-380 | a handler waiting with a UE sends it, when it is looked at, if and only if the UE has an eNB that has so reported |
| RoleWaiting.SentAfterReport | ran-emulator/ran_controller/ran_controller.py:360-380 | in every run, before a slave is sent a UE the UE's eNB has reported, with no error message about it in between |
| RoleWaiting.StatusIsReported | ran-emulator/ran_controller/ran_controller.py:424-470 | a UE has the status it reported last until an error message comes |
| RoleProgress.SomeStepHelps | ran-emulator/ran_controller/ran_controller.py:257-390 | no orderly state is stuck: unless all is dealt with, some orderly step changes it and leaves less to do |
| RoleProgress.EveryRunCompletes | ran-emulator/ran_controller/ran_controller.py:257-390 | every orderly run can be carried on until all slaves have started and all messages are dealt with |
| Aggregation.EntriesExactly | yagra/yagra.c:165-285 | for every sequence of observations by any references, unless the list is lost: one entry for each opening observation, in order, counted right, each the fold of exactly the values that go into it |
| Aggregation.OneEntryExactly | yagra/yagra.c:186-196 | a batch of aggregated metrics has one entry a metric if and only if every observation of a metric after its first uses the registered name |
| Aggregation.EntriesAreFolds | yagra/yagra.c:165-285 | then, also when the first observation uses a literal, each entry is the fold of all values observed under that text |
| Aggregation.KeptValue | yagra/yagra.c:202-210 | the folds of KEEP_FIRST and KEEP_LAST are the first and the last value |
| Aggregation.Extremum | yagra/yagra.c:216-225 | the folds of MIN and MAX are the least and the greatest of the values |
| Aggregation.SumModulo | yagra/yagra.c:211-215 | the fold of SUM is the total modulo 2^64 |
| Aggregation.CountedValues | yagra/yagra.c:253-262 | an average counts the values folded; no other strategy keeps a count |
| Aggregation.AverageBound | yagra/yagra.c:226-234 | when the total fits 64 bits, the average is at least the smallest value, at most the mean, and below it by at most (n - 1) / 2 |
| Aggregation.LiteralsPileUp | yagra/yagra.c:186-196 | when no observation uses the registered name, as with literals or the shadowed name of a second definition, each has an entry of its own |
| Aggregation.CountStaysRight | yagra/yagra.c:235-271 | over whole runs the number of metrics equals the list length if and only if a NONE metric leading the list was never observed again by its registered name; it is never too small |
| Aggregation.LastLoses | yagra/yagra.c:235-271 | that observation leaves a list of its own entry only |
| Yagra.Connection.Find | yagra/yagra.c:170-184 | the first metric of that text, or none |
| Yagra.Connection.Define | yagra/yagra.c:88-153 | the message unless it exceeds 512 bytes, and the metric with its name cut to 63 bytes at the end of the list once it is sent |
| Yagra.DefinedIsFound | yagra/yagra.c:131-136 | a metric is found by its name if that has at most 63 bytes; a longer name is refused, while its first 63 bytes lead to the metric |
| Yagra.Batch.Search | yagra/yagra.c:186-196 | the entry with that very reference, and its predecessor or the last entry |
| Yagra.Datum.Fold | yagra/yagra.c:198-244 | an entry is updated by its strategy in 64-bit arithmetic |
| Yagra.Batch.Observe | yagra/yagra.c:165-285 | on linked nodes: exactly the change of one observation, -1 only for an unknown metric |
| Yagra.Batch.Send | yagra/yagra.c:287-352 | the message of exactly the entries in the batch, nothing when it is empty, -1 when it exceeds 512 bytes |
| MetricsWire.EstimateSuffices | yagra/yagra.c:301-315 | 128 bytes a metric bound the body, so its length always fits the announced length bytes |
| MetricsWire.LittleRoundTrip | yagra/yagra.c:343-345 | a length written lowest byte first reads back |
| MetricsWire.PrintedRoundTrip | yagra/yagra.c:325 | a printed value reads back as the number of 64-bit two's complement |
| MetricsWire.ItemFormat | yagra/yagra.c:325 | an item is the format string of yagra.c filled in with name and value |
| MetricsWire.DefinitionFormat | yagra/yagra.c:96-106 | a definition body is the format strings of its parts filled in |
| MetricsBus.Bus.RegisterMetric | core-metrics-bus/source/main.cpp:431-490 | the first definition of a name counts |
| MetricsBus.Bus.ProcessDefinition | core-metrics-bus/source/main.cpp:194-245 | each line of a body registers the metric its last name, description and type parts give |
| MetricsBus.Bus.ProcessBatch | core-metrics-bus/source/main.cpp:295-334 | of each line exactly the pairs of registered metrics are recorded, in order |
| MetricsBus.Bus.ThreadWorker | core-metrics-bus/source/main.cpp:80-157 | reading a stream to its end registers and records what its frames say, resynchronising at the two mark bytes |
| MetricsBus.ReadLines | core-metrics-bus/source/main.cpp:200-211 | the getline loop yields the pieces between separators, without an empty last one |
| MetricsBus.ReadHead | core-metrics-bus/source/main.cpp:97-142 | the reads up to a body classify the front of the stream |
| MetricsBus.ReadLength | core-metrics-bus/source/main.cpp:279-284 | the length put together from shifted bytes is the little-endian number |
| MetricsTheorems.DefinitionFramed | core-metrics-bus/source/main.cpp:171-192 | of a definition body the bus reads 1024 bytes at most; what is left is taken for the next messages |
| MetricsTheorems.BatchFramed | core-metrics-bus/source/main.cpp:257-293 | the same for batch bodies of any announced length |
| MetricsTheorems.StreamSplits | core-metrics-bus/source/main.cpp:97-142 | any concatenation of messages, whatever their bodies, is split into exactly these bodies in order |
| MetricsTheorems.BatchRoundTrip | core-metrics-bus/source/main.cpp:295-326 | a batch body parses back to its name and value list when names avoid the separators |
| MetricsTheorems.DefinitionRoundTrip | core-metrics-bus/source/main.cpp:194-232 | a definition body parses back to its name, description and type |
| MetricsTheorems.BusSeesWhatClientSent | core-metrics-bus/source/main.cpp:97-326 | the bus registers and observes exactly what the client defined and sent, in order |
| MetricsTheorems.EverythingRecorded | core-metrics-bus/source/main.cpp:319-334 | when each metric is defined before it is observed, the bus records every value of every batch |
| MetricsTheorems.FirstDefinitionCounts | core-metrics-bus/source/main.cpp:431-490 | the bus registers exactly the metrics that the client defines, each with the kind of its first definition |
| MetricsTheorems.AggregatesArrive | yagra/yagra.c:165-352 | from observations by any references to the bus: one pair for each opening observation, in order, with the printed fold of the values that went into its entry |

## Left out

- Sockets, threads, SCTP, UDP and TCP set-up, TUN devices, processes, Kubernetes, Flask and logging are replaced by byte strings, parameters and steps.
- AES, Milenage, CMAC and the key derivations around HMAC stay opaque: large tables or calls into libraries.
- The NGAP and S1AP message builders and analysers, and the handlers' message contents: mostly constant fields at fixed offsets.
- The handover branches of `enb_emulator.c` and `list.c`: their intent and behaviour diverge.
- Memory management: allocation succeeds, a new list node ends its list, and freed structures are not used again. In particular `yagra_define_metric` does not set `next` of a new metric; the model takes it to be NULL.
- Hmac.KeyedDigest: messages and keys are below 2^31 bytes, the largest length the source's int parameter can pass.
- Hmac.HashInParts: each piece is below 2^32 bytes, the range of the source's length parameter.
- ActionValidator.Validate: Python's isdigit also accepts digits outside ASCII, which the model does not. Of these, digits such as the superscript two make int() raise in serialize_control_plane (UserInput.py:80, 134, 150), so the source accepts strings that it then cannot serialize.
- ActionCompiler.CompilerCorrect: does not model the 16-bit program length of the emulator's message, so it is about programs that fit; what the actions do on the network is not modelled either.
- CoreKubeDb.Server.AnalyzeRequest: requests whose records run out of the received buffer, or whose replies exceed the response buffer, are undefined behaviour in the source and not modelled; a request about a new eNB contains only eNB items, since the source then has no record to read.
- DbReplies.SocketReplies: what the source copies from behind the record's end is not specified.
- DbFields.FieldsHoldLastTaken: the two NAS counters, the next hop chaining count and RAND change when they are pulled; DbFields.CountersCount says what the counters hold.
- DbClient.DbAccess: requests for an identifier kind the client does not know, and with new eNBs, GET_ENB or unknown items, are left to LibCk.DbRequest. When nothing is pulled for an unknown subscriber the server still answers one byte, which the source leaves unread in the socket.
- DbIdentities.EverySubscriberFound: the lines of the file are records whose IMSI has 15 digits; how process_line splits a line is not modelled.
- NasCounter.CountsReused: requests of one subscriber do not overlap in the server. corekubeDB.c has no mutex that would ensure it (corekubeDB.c:503-510).
- The uplink NAS count: the server puts it where the worker does not look, so nothing useful holds of it.
- The parameter struct of a NAS message is a value in the state machine of NasCounter, because its steps interleave; its update in place is not modelled. Payload nesting is limited to session management messages, which are not protected by themselves.
- Status messages to the RAN controller name a role by position; their look-up by a four-byte id, `running_ues`, and handovers that change the eNB of a UE are not modelled. `mobilestream` is off, as in the source.
- Iterating over Python sets is iterating over a fixed sequence.
- Yagra.Batch.Observe: fewer than 2^32 observations are averaged in a batch; the counter of the source would wrap to zero there and divide by it.
- Yagra.Connection.Define: a description long enough to overflow the source's buffer before its length is checked is answered by -1 here.
- Yagra.Batch.Send: likewise a body that overflows the source's 1024-byte buffer before its length is checked (yagra.c:319-335) is answered by -1 here.
- Prometheus families and quantiles, the bus's own count of batches, and conversion of printed values to floating point.
- MetricsBus.Bus.ProcessBatch: a value that does not convert to a number aborts the source by an exception; the model records its text.
- MetricsBus.Bus.ThreadWorker: a length field of more than eight bytes does not fit the source's variable; the model stops there.
