# A verified model of the Aliro access protocol engine

Two parties, a Reader and a User Device, talk over NFC or BLE. This project models how they do it, and proves what
holds over every payload, every run and every behaviour of the other side.

| files | what they model |
|---|---|
| `ApduCodec.dfy`, `Fragmentation.dfy`, `Chaining.dfy`, `ChainingEnds.dfy`, `TwoParty.dfy` | commands and responses (ISO/IEC 7816-4:2005, section 5.1), their fragmentation, command chaining (section 5.1.1.1) and GET RESPONSE (section 7.6.1), how each loop ends for any messages, and both ends running over one channel |
| `Tlv.dfy` | the checker of TLV sequences (section 5.2.2) |
| `Encryption.dfy` | two paired encryption engines with counters as nonces (NIST SP 800-38D, section 8.2.1) |
| `Mailbox.dfy`, `MailboxExchange.dfy` | the mailbox, its write log, and atomic sessions |
| `UserMachine.dfy`, `UserDevice.dfy` | the device as a step machine, and the objects that refine it |
| `UserSafety.dfy`, `UserCounters.dfy`, `UserEngines.dfy`, `UserStepUp.dfy`, `UserStore.dfy` | what every run of it keeps |
| `UserOrder.dfy`, `UserHandshake.dfy`, `UserExchanges.dfy`, `UserLoops.dfy` | what every input leads to after any run, said by the events of the run |
| `ReaderFailure.dfy`, `Reader.dfy` | the mutually recursive failure handling of the reader |
| `ExchangeCodec.dfy`, `ExchangeAccepts.dfy`, `ExchangeEndToEnd.dfy`, `ExchangeWritten.dfy`, `ExchangeLengths.dfy` | an EXCHANGE at its two ends: the requests as bytes, which payloads are accepted, what the device makes of them, the answer, and how long both packets are |
| `OverWire.dfy`, `ExchangeCall.dfy`, `EnvelopeCall.dfy`, `ExchangeLimits.dfy` | a call of the reader through all layers: built, carried, served, answered, returned; an EXCHANGE, an ENVELOPE, and two EXCHANGE calls that do not return their data |
| `BleMessage.dfy` | the framing of BLE messages and the four messages of the ranging setup |

Objects that the program changes in place are classes, and loops are loops. Every method of a class is tied by its
`ensures` to a function of the state before the call. The lemmas are about those functions, and about runs of them;
since `UserDevice.Serving` is such a run, the theorems about runs hold of the object.

The transport is a list of incoming and a list of outgoing messages. The cipher is a parameter, of which only
`Aead.Correct` is assumed: a packet opens to a text exactly if it is the seal of that text under the same key, nonce and
associated data. `SomeAeadIsCorrect` shows that this can be met. Signatures, certificates and the results of sending are
inputs of each step, so the theorems hold whatever they are.

## What the code does that one might not expect

* An EXCHANGE whose answer does not fit one response is performed, but never answered: it is sent in class 0x80, in which
  the device refuses to be asked for the rest. `CallReturnsIff` says exactly which calls return their data, and
  `LongReadIsLost` and `LongWriteIsNotSent` are calls that do not, although all their requests are in range.
* A chained answer arrives only in class 0x00. GET RESPONSE repeats the class of the command (`apdu.py:1567`), and the
  device accepts only 0x00 and 0x10 for it (`apdu.py:413-420`, `apdu.py:552`). `TwoPartyChaining` states both outcomes; by
  `EnvelopeReturnsIff` the documents, which are sent in that class, arrive whatever their length.
* An Le of 0, which a missing Le is read as, makes any short answer with data raise ValueError, and the limit of 0 stays
  for later commands until one narrows it to something else or has no data to answer (`OneShotLimit`).
* In short mode an Le of 256 is accepted and makes an extended frame, which is too long from 253 bytes of data on
  (`FrameFits`).
* More than 65535 bytes of data are encoded to something that no parser accepts (`OversizedDataIsRejected`). A chained
  request of 2^24 bytes or more is collected to its end and then fails (`RebuiltIff`).
* The TLV checker skips its order check if the last object is an unexpected one (`UnexpectedTailHidesOrder`), and it
  reads the length of an unexpected object as one byte, whatever its form (`UnfollowedSkips`).
* The reader seals a command before it is built. If building it raises, the session lives on one number ahead
  (`LockstepForever`, `OutOfStepIsRefused`).
* In SELECT_STEP_UP_DONE an EXCHANGE is decrypted with one engine and answered with the other (`StandardRunBreaksStep`);
  without AUTH1 before it, the loop ends with AttributeError (`FastRunEndsLoop`).
* An unknown instruction stops the main loop for good (`UnknownStopsLoop`), although its comment says that it keeps
  running: the error is one that the loop passes over, but the failure process has ended the session before. Counters
  that are used up stop it in the same way (`CannotEnter`).
* The mailbox permission of the step-up phase is tested behind the change of state, so the test never fires
  (`StepUpGuardIsDead`, `StepUpMailboxIsServed`), although `mailbox.py:68-70` says that the phase has no mailbox.
* The log of an open atomic session outlives the session of the device (`RunIsExchanges`).
* On NFC a failure process leaves the reader's session in place if the peer does not acknowledge the command, or if the
  code is not one of CONTROL FLOW (`SessionEndsIff`). Its doc comment says that all session data are destroyed.
* Read data without a list of read requests raises TypeError while an error message is made (`DecodeReadData`).
* A BLE attribute with an empty value is read back as one without a value (`AttributeRoundTripIff`).

## Model

| member | source | states |
|---|---|---|
| `ApduCodec.GrammarIsAccepted` | `src/aliro_actuator/access_protocol/apdu.py:355-405` | every body of the seven shapes (cases 1 to 4, short and extended) is accepted and read as the fields it stands for; a short Le of 0 is 256, an extended one 0 |
| `ApduCodec.AcceptedIsGrammar` | `src/aliro_actuator/access_protocol/apdu.py:355-405` | nothing else is accepted: any accepted byte string is four header bytes and a body of the grammar, read as what the body means |
| `ApduCodec.EncodeWritesBody` | `src/aliro_actuator/access_protocol/apdu.py:303-325` | which of the seven shapes is written for each data length and Le |
| `ApduCodec.CommandRoundTrip` | `src/aliro_actuator/access_protocol/apdu.py:266-352` | encoding and parsing give back header, Lc and data for up to 65535 bytes, with Le absent read as 0, a short 0 as 256, any other as itself |
| `ApduCodec.OversizedDataIsRejected` | `src/aliro_actuator/access_protocol/apdu.py:308-316` | from 65536 bytes on the encoder still produces a command, and the parser always refuses it with the Lc error |
| `ApduCodec.EncodeInjective` | `src/aliro_actuator/access_protocol/apdu.py:266-327` | two different commands never have the same encoding, even where the parser merges their Le |
| `ApduCodec.ChainBitIsMask` | `src/aliro_actuator/access_protocol/apdu.py:407-428` | the chaining bit is tested and set by the mask 0x10, and nothing else of the class changes |
| `ApduCodec.ResponseBytesRoundTrip` | `src/aliro_actuator/access_protocol/apdu.py:1023-1042` | data followed by the two status bytes is split at the right place for every data length |
| `ApduCodec.ResponseRoundTrip` | `src/aliro_actuator/access_protocol/apdu.py:1023-1069` | a response survives its encoding, except that empty data is read as no data |
| `Fragmentation.Apdu.constructor` | `src/aliro_actuator/access_protocol/apdu.py:1448-1459` | a new object is in short mode with the lengths of its transport |
| `Fragmentation.Apdu.SetExtendedLength` | `src/aliro_actuator/access_protocol/apdu.py:1481-1484` | extended mode takes both announced limits and leaves the narrowed answer limit alone |
| `Fragmentation.Apdu.ResetExtendedLength` | `src/aliro_actuator/access_protocol/apdu.py:1486-1489` | short mode is restored |
| `Fragmentation.Apdu.MaxDataLength` | `src/aliro_actuator/access_protocol/apdu.py:2302-2332` | the chunk size of each of the three modes with its length errors, computed from the whole payload |
| `Fragmentation.Apdu.CutData` | `src/aliro_actuator/access_protocol/apdu.py:2334-2340` | the cutting loop yields exactly the chunks that `ChunksLaw` describes, whenever it ends at all |
| `Fragmentation.Apdu.CreateCommand` | `src/aliro_actuator/access_protocol/apdu.py:2274-2355` | the loops return exactly the chain that `RequestFragmentation` describes, or the first error |
| `Fragmentation.CuttingEndsIff` | `src/aliro_actuator/access_protocol/apdu.py:2334-2340` | the loop ends if and only if the chunk size is positive or the payload fits at once, with slicing by a negative size as Python does it |
| `Fragmentation.ChunksLaw` | `src/aliro_actuator/access_protocol/apdu.py:2334-2340` | the chunks concatenate to the payload, all but the last are full, and none of several is empty |
| `Fragmentation.ChunkCount` | `src/aliro_actuator/access_protocol/apdu.py:2334-2340` | their number is the payload length divided by the size, rounded up |
| `Fragmentation.BuildAllLaw` | `src/aliro_actuator/access_protocol/apdu.py:2342-2355` | command i carries part i, and the chaining bit is added to all but the last |
| `Fragmentation.RequestFragmentation` | `src/aliro_actuator/access_protocol/apdu.py:2274-2355` | for every payload and every Le of two bytes that the mode accepts, the chain carries the payload whole, in order and in chunks of the computed size |
| `Fragmentation.ChainBits` | `src/aliro_actuator/access_protocol/apdu.py:2342-2353` | all and only the commands before the last carry the chaining bit |
| `Fragmentation.FrameFits` | `src/aliro_actuator/access_protocol/apdu.py:2297-2355` | a fragment always encodes, and its frame is within the mode's limit although the overhead was computed from the whole payload; the exception is an Le of 256 on short NFC with more than 252 bytes, and nothing else |
| `Fragmentation.RequestFramesFit` | `src/aliro_actuator/access_protocol/apdu.py:2274-2355` | every frame of every chain is within 261 bytes on short NFC, the BLE payload on BLE, and the announced maximum in extended mode, if and only if it is not that exception |
| `Fragmentation.CommandsAreFull` | `src/aliro_actuator/access_protocol/apdu.py:2274-2355` | the bound from below: the payload goes out in one command if and only if its frame fits (255 bytes of data on short NFC, 243 bytes on BLE, the announced maximum in extended mode); else every command before the last is full to that bound, but for the Lc and Le bytes that a shorter part saves; and exactly which payloads and Le are refused, with which error |
| `Fragmentation.Apdu.CreateResponseChain` | `src/aliro_actuator/access_protocol/apdu.py:2385-2408` | the countdown loop returns the chain of `ResponseChainLaw`; limit 0 raises, a negative limit gives no response at all |
| `Fragmentation.ResponseChainLaw` | `src/aliro_actuator/access_protocol/apdu.py:2385-2408` | the fragments concatenate to the payload, none is empty, SW2 counts the bytes still to come (0 for more than 255) under SW1 0x61, and only the last has the caller's status |
| `Fragmentation.ResponsesAreFull` | `src/aliro_actuator/access_protocol/apdu.py:2357-2408` | an answer is one response if and only if it fits with its status; else every response before the last fills the limit, which is that of the data in short mode and that of the whole frame in extended mode |
| `Fragmentation.Apdu.CreateResponse` | `src/aliro_actuator/access_protocol/apdu.py:2357-2383` | one response or a chain, by the narrowed limit in short mode and by the command maximum in extended mode; the limit is back at its default exactly when a short answer was made |
| `Fragmentation.Apdu.NarrowResponse` | `src/aliro_actuator/access_protocol/user_device.py:2110-2112` | an Le below the default narrows the limit, any other leaves it |
| `Fragmentation.RoundLaw` | `src/aliro_actuator/access_protocol/user_device.py:2110-2112` | one command with its answer, from a limit that is the default or 0: the answer raises if and only if there is data and the limit is narrowed to nothing; else no fragment is longer than Le, and the default is back |
| `Fragmentation.OneShotLimit` | `src/aliro_actuator/access_protocol/apdu.py:2357-2374` | over every run, each answer raises or obeys the Le of its own command, and the limit is back at its default if and only if the last answer did not raise |
| `Fragmentation.LastRaisedMeans` | `src/aliro_actuator/access_protocol/apdu.py:2364-2374` | an answer raises if and only if, since some command with an Le of 0, every answer had data and no command named an Le in between that narrows the limit to something else |
| `Fragmentation.Apdu.AnswerWithin` | `src/aliro_actuator/access_protocol/apdu.py:2357-2383` | narrowing by the command and answering it is one round of those runs |
| `Chaining.AwaitMessage` | `src/aliro_actuator/access_protocol/apdu.py:1576-1594` | the wait skips busy events only while a timer runs, and raises on any other unexpected message |
| `Chaining.SendChain` | `src/aliro_actuator/access_protocol/apdu.py:1491-1539` | the loop over the chained commands waits for one answer per command |
| `Chaining.CollectResponse` | `src/aliro_actuator/access_protocol/apdu.py:1541-1574` | the loop that asks for the rest of a chained answer in the class of the last command |
| `Chaining.HandleChainingSendCommand` | `src/aliro_actuator/access_protocol/apdu.py:1491-1600` | what is sent, what is left unread and how it ends equal the reader of the two-party model; an empty list raises UnboundLocalError |
| `Chaining.HandleChainingReceiveCommand` | `src/aliro_actuator/access_protocol/apdu.py:1602-1656` | what the device sends, leaves unread and returns while it collects a chained command equal its part of the two-party model |
| `Chaining.RebuiltIff` | `src/aliro_actuator/access_protocol/apdu.py:1647-1656` | the last fragment completes the command, with the whole payload, if and only if that is shorter than 2^24 bytes; else OverflowError |
| `Chaining.HandleChainingSendResponse` | `src/aliro_actuator/access_protocol/apdu.py:1658-1697` | what the device sends, leaves unread and raises while it is asked for a chained answer equal its part of the two-party model |
| `Chaining.AwaitInQuiet` | `src/aliro_actuator/access_protocol/apdu.py:1576-1594` | one wait finds the same message with and without the busy events |
| `Chaining.ReaderIgnoresBusy` | `src/aliro_actuator/access_protocol/apdu.py:1507-1522` | with a timer, busy events anywhere change neither what the reader sends nor its result |
| `Chaining.ReceiveIgnoresBusy` | `src/aliro_actuator/access_protocol/apdu.py:1630-1645` | the same for the device that receives |
| `Chaining.SendIgnoresBusy` | `src/aliro_actuator/access_protocol/apdu.py:1680-1697` | the same for the device that answers |
| `Chaining.BusyWithoutTimer` | `src/aliro_actuator/access_protocol/apdu.py:1507-1522` | without a timer the first busy event ends each of the three loops with an error, and nothing more is sent |
| `ChainingEnds.ReaderEnds` | `src/aliro_actuator/access_protocol/apdu.py:1491-1600` | for every list of incoming messages, malformed ones and error statuses included: which answer decides, how the loop of the reader ends, and the bytes of all it has sent, each GET RESPONSE with its Le |
| `ChainingEnds.StatusDecides` | `src/aliro_actuator/access_protocol/apdu.py:1761-1790` | it returns a response if and only if an answer with the success status decides, and that is the status of the response; it raises InvalidStatusError with a status if and only if the deciding answer has that status and it is neither 0x9000 nor 0x61xx |
| `ChainingEnds.ReceiveEnds` | `src/aliro_actuator/access_protocol/apdu.py:1602-1656` | the same for the device that receives: one acknowledgement of 0x9000 without data for each chained message, and the command as it came or rebuilt from all of them |
| `ChainingEnds.SendEnds` | `src/aliro_actuator/access_protocol/apdu.py:1658-1697` | the same for the device that answers: which fragments leave, and what a message that is no GET RESPONSE is refused with |
| `TwoParty.GetResponseLaw` | `src/aliro_actuator/access_protocol/apdu.py:544-557` | a GET RESPONSE made from a countdown is understood if and only if its class is 0x00 or 0x10 |
| `TwoParty.CanGetResponseIff` | `src/aliro_actuator/access_protocol/apdu.py:2263-2272` | when such a command can be built: always in short mode, in extended mode if header and Le fit the maximum |
| `TwoParty.QuestionTaken` | `src/aliro_actuator/access_protocol/apdu.py:1680-1697` | the device answers the j-th question with fragment j + 1 in class 0x00, and raises the class error otherwise |
| `TwoParty.PhaseStep` | `src/aliro_actuator/access_protocol/apdu.py:1491-1697` | before the end, the receiver of the one message in flight is waiting for it, and its delivery leads to the next phase |
| `TwoParty.PhasesCount` | `src/aliro_actuator/access_protocol/apdu.py:1491-1697` | the phases are counted off one by one up to the stated total |
| `TwoParty.NextFollows` | `src/aliro_actuator/access_protocol/apdu.py:1491-1697` | every step any party can take, busy events included, stays on the phase or moves it forward by one |
| `TwoParty.RealChains` | `src/aliro_actuator/access_protocol/apdu.py:2274-2383` | the chains of `create_command` and `create_response` with positive chunk sizes meet the assumptions of the two-party theorem |
| `TwoParty.CanDerive` | `src/aliro_actuator/access_protocol/apdu.py:2263-2272` | the remaining assumptions only name values that always exist |
| `TwoParty.TwoPartyChaining` | `src/aliro_actuator/access_protocol/apdu.py:1491-1697` | in every reachable state exactly one message is in flight; after exactly 2(n + m - 1) deliveries the device has seen the payload and the reader has the whole answer. In another class than 0x00 that holds if m = 1; for m > 1 the run stops after 2n + 1 deliveries with the class error and one fragment; without any response it stops after 2n - 1 |
| `TwoParty.BothEndsFinish` | `src/aliro_actuator/access_protocol/apdu.py:1491-1697` | from every reachable state the end is reached within a bounded number of steps |
| `TwoParty.EveryRunIsShort` | `src/aliro_actuator/access_protocol/apdu.py:1491-1697` | no run goes on for ever: it has at most 2t + 1 steps and two more for each busy event, where t is the number of deliveries |
| `Tlv.VerifySequence` | `src/aliro_actuator/access_protocol/tlv.py:345-430` | the index loop raises exactly what the recursive checker says, for every byte string and table |
| `Tlv.VerifyObjects` | `src/aliro_actuator/access_protocol/tlv.py:345-430` | from any point of the loop, the byte-level checker on well-formed objects decides by their lengths and the order of their tags alone; unexpected objects have the short length form here |
| `Tlv.VerifyMeetsSpecification` | `src/aliro_actuator/access_protocol/tlv.py:345-430` | on such objects that are none or end in an expected one, it returns if and only if every expected object has its length and the expected tags are strictly in table order (mailbox commands: any order) |
| `Tlv.UnexpectedTailHidesOrder` | `src/aliro_actuator/access_protocol/tlv.py:377-385` | behind an unexpected last object only lengths are decisive; no order is |
| `Tlv.UnexpectedSkips` | `src/aliro_actuator/access_protocol/tlv.py:377-385` | at any point of the loop, an unexpected object of any length form moves it on by the tag, one byte, and as many bytes as that one says |
| `Tlv.UnfollowedSkips` | `src/aliro_actuator/access_protocol/tlv.py:377-385` | the remaining lists of objects: up to the first unexpected one with a longer length form all are checked for their lengths, and then 129 or 130 bytes behind its first length byte are skipped, wherever that leads |
| `Tlv.MetFromStart` | `src/aliro_actuator/access_protocol/tlv.py:369-375` | which objects are expected, in terms of the table as the loop leaves it, unless one has the tag of the wildcard itself |
| `Tlv.InOrderIff` | `src/aliro_actuator/access_protocol/tlv.py:421-428` | the shared-iterator test is strict order in the table |
| `Tlv.RisingMeans` | `src/aliro_actuator/access_protocol/tlv.py:421-428` | that order, said by positions |
| `Tlv.FindIsPosition` | `src/aliro_actuator/access_protocol/tlv.py:421-428` | a resumed search finds a tag if and only if its position has not been passed |
| `Tlv.TableIs` | `src/aliro_actuator/access_protocol/tlv.py:49-94` | no table is changed by the loop except the wildcard of the notification table, which becomes the first 0x9F tag |
| `Tlv.TagMasks` | `src/aliro_actuator/access_protocol/tlv.py:369-375` | sub tags and two-byte tags are told by the masks of the code |
| `Tlv.CutObjectEnds` | `src/aliro_actuator/access_protocol/tlv.py:389-428` | an expected object whose value is cut short is checked for its length, is not listed for the order check, and ends the loop |
| `Encryption.EncryptionEngine.constructor` | `src/aliro_actuator/access_protocol/encryption.py:65-86` | keys and nonce prefixes are crossed between the two roles, counters start at 1 |
| `Encryption.EncryptionEngine.CheckCountersValid` | `src/aliro_actuator/access_protocol/encryption.py:88-99` | both counters are below 0xFFFF |
| `Encryption.EncryptionEngine.Encrypt` | `src/aliro_actuator/access_protocol/encryption.py:101-131` | seals under the current nonce and advances one counter; raises and changes nothing once it no longer fits four bytes |
| `Encryption.EncryptionEngine.Decrypt` | `src/aliro_actuator/access_protocol/encryption.py:133-169` | opens under the current nonce and advances the other counter, whether or not the verification succeeds |
| `Encryption.DecryptIff` | `src/aliro_actuator/access_protocol/encryption.py:133-169` | a packet is accepted as a plaintext if and only if it is the peer's seal of it at this very place |
| `Encryption.IvInjective` | `src/aliro_actuator/access_protocol/encryption.py:74-82` | nonces determine role and counter |
| `Encryption.EveryRunIsPaired` | `src/aliro_actuator/access_protocol/encryption.py:101-169` | for every interleaving of sends, deliveries and replacements, the sender's counter is the receiver's plus the messages in flight, in both directions |
| `Encryption.PairedEnginesAreFifo` | `src/aliro_actuator/access_protocol/encryption.py:101-169` | without replacements the delivered plaintexts are a prefix of the sent ones, in both directions |
| `Encryption.NoncesNeverRepeat` | `src/aliro_actuator/access_protocol/encryption.py:114-124` | over every run no nonce is used twice, by one side or by both |
| `Encryption.CorruptionStaysLocal` | `src/aliro_actuator/access_protocol/encryption.py:160-169` | whatever replaced other messages, each intact one is delivered as it was sent |
| `Encryption.SomeAeadIsCorrect` | `src/aliro_actuator/access_protocol/encryption.py:121-123` | the assumption about the cipher is satisfiable |
| `Encryption.WireRoundTrip` | `src/aliro_actuator/access_protocol/apdu.py:2181-2184` | ciphertext and tag are split apart as they were put together |
| `Encryption.SealedByDirection` | `src/aliro_actuator/access_protocol/encryption.py:65-114` | the reader seals under its own key and the prefix of eight zeros, the device under the other key and the prefix that ends in 1, both from number 1 on |
| `MailboxStore.Mailbox.Sized` | `src/aliro_actuator/access_protocol/mailbox.py:71-74` | a mailbox of a given size: zeros, flag clear, empty index |
| `MailboxStore.Mailbox.Filled` | `src/aliro_actuator/access_protocol/mailbox.py:75-86` | a mailbox of given elements, with its flag and running offsets |
| `MailboxStore.Mailbox.DataIsSet` | `src/aliro_actuator/access_protocol/mailbox.py:88-99` | the query as a function of flag and data |
| `MailboxStore.Mailbox.Set` | `src/aliro_actuator/access_protocol/mailbox.py:101-122` | the new state, or the permission error with nothing changed |
| `MailboxStore.Mailbox.Read` | `src/aliro_actuator/access_protocol/mailbox.py:124-149` | the slice clamped to the data, or the permission error |
| `MailboxStore.Mailbox.Write` | `src/aliro_actuator/access_protocol/mailbox.py:151-168` | the new state, or the permission error with nothing changed |
| `MailboxStore.SpliceLaw` | `src/aliro_actuator/access_protocol/mailbox.py:167` | an assignment in range replaces its window and nothing else; the length stays if and only if it is in range or empty |
| `MailboxStore.IndexLocates` | `src/aliro_actuator/access_protocol/mailbox.py:76-83` | right after construction each index line gives the place of exactly its element's bytes |
| `MailboxStore.ConstructedFlagSound` | `src/aliro_actuator/access_protocol/mailbox.py:71-86` | both constructors leave a flag that `FlagIsHonest` can start from |
| `MailboxStore.FlagIsHonest` | `src/aliro_actuator/access_protocol/mailbox.py:88-122` | over every run of `set` and `write` the query is true if and only if some byte is not zero, cached flag or not |
| `MailboxStore.MailboxSession.constructor` | `src/aliro_actuator/access_protocol/user_device.py:2783-2785` | a session starts closed with an empty log |
| `MailboxStore.MailboxSession.Start` | `src/aliro_actuator/access_protocol/user_device.py:2787-2788` | opening keeps the log |
| `MailboxStore.MailboxSession.Stop` | `src/aliro_actuator/access_protocol/user_device.py:2790-2792` | closing empties the log |
| `MailboxStore.MailboxSession.AddWrite` | `src/aliro_actuator/access_protocol/user_device.py:2797-2801` | a write goes to the end of the log |
| `MailboxStore.MailboxSession.AddSet` | `src/aliro_actuator/access_protocol/user_device.py:2803-2807` | a set goes to the end of the log |
| `MailboxStore.MailboxSession.ExecuteCommands` | `src/aliro_actuator/access_protocol/user_device.py:2809-2817` | the loop applies the log in order up to the first failure |
| `MailboxStore.ApplyInRange` | `src/aliro_actuator/access_protocol/user_device.py:2809-2817` | a command in range succeeds, changes the bytes it covers and no others |
| `MailboxStore.CommitLaw` | `src/aliro_actuator/access_protocol/user_device.py:2809-2817` | a log in range cannot fail part-way: each byte becomes what the last command covering it says, or stays |
| `MailboxExchange.CheckRequests` | `src/aliro_actuator/access_protocol/user_device.py:1655-1725` | the verdict on permissions and boundaries, taken before anything is done |
| `MailboxExchange.AcceptedParts` | `src/aliro_actuator/access_protocol/user_device.py:1766-1776` | whatever is accepted, each returned part is the window that was asked for, and as long as that |
| `MailboxExchange.ReadRequests` | `src/aliro_actuator/access_protocol/user_device.py:1766-1776` | the reads, in request order, from the mailbox as it was |
| `MailboxExchange.PerformRequests` | `src/aliro_actuator/access_protocol/user_device.py:1778-1799` | the queueing and committing branches lead to the store of `AtomicSessions`, object for object |
| `MailboxExchange.NothingIsLost` | `src/aliro_actuator/access_protocol/user_device.py:1778-1799` | over every run, what was applied followed by what is pending is what was asked for: nothing lost, doubled or reordered |
| `MailboxExchange.RunIsHistory` | `src/aliro_actuator/access_protocol/user_device.py:1778-1799` | after every run the mailbox is the old one with the applied requests executed in order, the log is the pending ones, and none of them failed |
| `MailboxExchange.AtomicSessions` | `src/aliro_actuator/access_protocol/user_device.py:1778-1799` | after every run: a refused EXCHANGE changes nothing, no byte changes while a session is open, the closing one applies all of the log with the last cover winning, and the length never changes |
| `UserSafety.AuthenticatedMeans` | `src/aliro_actuator/access_protocol/user_device.py:1086-1234` | the trace predicate in terms of positions: a fast AUTH0 or verified AUTH1 with no new session and no standard AUTH0 after it |
| `UserSafety.SignatureSeenMeans` | `src/aliro_actuator/access_protocol/user_device.py:1433-1547` | the same for a verified AUTH1 with no new session after it |
| `UserSafety.StepSafe` | `src/aliro_actuator/access_protocol/user_device.py:319-484` | every input, in every phase of both loops and on every transport, keeps the invariant that ties states to the trace |
| `UserSafety.EveryRunIsSafe` | `src/aliro_actuator/access_protocol/user_device.py:319-484` | the invariant holds after every run |
| `UserSafety.AuthenticatedStateSafety` | `src/aliro_actuator/access_protocol/user_device.py:1023-1930` | in every run an EXCHANGE is answered under the success status, be its payload the success or the error code, only in an authenticated session, an ENVELOPE only after a verified signature in it, and the fast path is taken only for a key known at the start or stored behind a verified signature of that reader |
| `UserSafety.ChangesAreAuthenticated` | `src/aliro_actuator/access_protocol/user_device.py:1577-1930` | one more input after any run, whatever sending its answer raises: mailbox and log change only by an EXCHANGE in an authenticated session; an answer is sealed only there, for an ENVELOPE after a verified signature, and for an AUTH1 whose own signature has just been verified |
| `UserCounters.WaitBound` | `src/aliro_actuator/access_protocol/user_device.py:2144-2188` | a wait that decrypts once uses exactly the room that the check left |
| `UserCounters.StepBound` | `src/aliro_actuator/access_protocol/user_device.py:1625-1628` | every input keeps the counters low enough for one more decryption |
| `UserCounters.CounterBound` | `src/aliro_actuator/access_protocol/user_device.py:1625-1628` | over every run both expedited counters stay at most 0xFFFF, also between the decryption of a command and its check |
| `UserEngines.EnginesAgree` | `src/aliro_actuator/access_protocol/user_device.py:2144-2169` | in a state that accepts EXCHANGE, decryption and answer use one engine if and only if the state is not SELECT_STEP_UP_DONE; ENVELOPE is always decrypted with the step-up engine |
| `UserEngines.RoundTrip` | `src/aliro_actuator/access_protocol/encryption.py:101-169` | a question and its answer both arrive, and the engines are in step again |
| `UserEngines.GenuineWait` | `src/aliro_actuator/access_protocol/user_device.py:2144-2188` | a genuine command cannot fail in the verification: only its contents can be refused |
| `UserEngines.TakeKeeps` | `src/aliro_actuator/access_protocol/user_device.py:319-484` | every turn of reader or environment, whatever fails in it, keeps each engine of a live session aligned with the reader's: the two counters differ by the commands sealed and not sent, and by the answers not decrypted |
| `UserEngines.LockstepForever` | `src/aliro_actuator/access_protocol/user_device.py:319-484` | over every run and on both channels, reader and device are in step if and only if, since the engines were made, every command that was sealed was sent and every answer was decrypted |
| `UserEngines.LosslessRun` | `src/aliro_actuator/access_protocol/apdu.py:2181-2197` | a run in which every sealed command is sent and every answer arrives leaves no such difference, so it stays in step |
| `UserEngines.EveryAnswerIsUnderstood` | `src/aliro_actuator/access_protocol/encryption.py:133-169` | after every run, the answer to a command decrypts to a text, unless an earlier one was missed |
| `UserEngines.OutOfStepIsRefused` | `src/aliro_actuator/access_protocol/user_device.py:2171-2188` | a packet that is no seal under the number that the device expects is refused, and the session ends |
| `UserEngines.SelectStepUpBreaksStep` | `src/aliro_actuator/access_protocol/user_device.py:1613-1621` | an accepted EXCHANGE in SELECT_STEP_UP_DONE is served, the session goes on, and then neither engine of the device is in step with the reader that sent it |
| `UserEngines.SelectStepUpWithoutAuth1` | `src/aliro_actuator/access_protocol/user_device.py:2158-2167` | reached without AUTH1, that state has no step-up engine, and an EXCHANGE ends the loop with AttributeError |
| `UserStepUp.StandardRunBreaksStep` | `src/aliro_actuator/access_protocol/user_device.py:2158-2167` | SELECT, AUTH0, AUTH1, SELECT and an empty EXCHANGE are a run in which that happens, with any four keys |
| `UserStepUp.FastRunEndsLoop` | `src/aliro_actuator/access_protocol/user_device.py:2158-2167` | SELECT, fast AUTH0, an EXCHANGE and SELECT reach the state without a step-up engine, and any EXCHANGE behind them ends the loop |
| `UserOrder.EveryRunInOrder` | `src/aliro_actuator/access_protocol/user_device.py:319-484` | over every run, state, certificate flags and named reader of the session are those that the trace says, and each event comes behind one that allows it |
| `UserOrder.HandshakeOrder` | `src/aliro_actuator/access_protocol/user_device.py:1023-1547` | in every run: a verified AUTH1 comes behind an AUTH0 that named the same reader, and on NFC an AUTH0 behind a SELECT of the expedited phase, in both cases with no new session, SELECT, AUTH0, AUTH1, EXCHANGE or ENVELOPE in between; and the latest certificate of its session did verify |
| `UserOrder.StageMeans` | `src/aliro_actuator/access_protocol/user_device.py:1023-1930` | the stage of a run, said by positions: the latest of those events |
| `UserHandshake.OutOfOrderEndsSession` | `src/aliro_actuator/access_protocol/user_device.py:1023-1930` | after every run, a command at a stage that does not take it ends the session or the loop, records nothing but the new session, and changes neither mailbox, log, stored keys nor answer |
| `UserHandshake.HandshakeServed` | `src/aliro_actuator/access_protocol/user_device.py:1023-1547` | after every run, what a SELECT, AUTH0, LOAD CERT or AUTH1 leads to, both ways: the command and the events so far decide alone whether it is served and what is then recorded, whether the session ends, or with which error the loop is left |
| `UserExchanges.NotifyTagMeans` | `src/aliro_actuator/access_protocol/user_device.py:1727-1763` | which notifications are known, by the masks of the code |
| `UserExchanges.ExchangeServed` | `src/aliro_actuator/access_protocol/user_device.py:1577-1810` | a genuine EXCHANGE after any run, whatever is in it: requests, reader status, URSK and notifications decide together what is performed, what is sealed as the answer, what is recorded, and whether the session goes on, ends, or the loop is left |
| `UserExchanges.CannotEnter` | `src/aliro_actuator/access_protocol/user_device.py:1623-1628` | without an engine the session ends, without a decrypted payload the loop is left with AttributeError, and with a counter at 0xFFFF with SessionError |
| `UserExchanges.EnvelopeServed` | `src/aliro_actuator/access_protocol/user_device.py:1869-1930` | a genuine ENVELOPE after any run seals the document behind its decryption, and is recorded if sending raises nothing |
| `UserLoops.NotReceivedLeads` | `src/aliro_actuator/access_protocol/user_device.py:319-344` | what each error of a wait does to the two loops |
| `UserLoops.FaultLeads` | `src/aliro_actuator/access_protocol/user_device.py:2171-2188` | what each error of a parser does to them, which differs for the two that the loops mean to pass over |
| `UserLoops.UnknownStopsLoop` | `src/aliro_actuator/access_protocol/user_device.py:2171-2182` | an unknown instruction ends the session before the loop passes over it, so any loop is left with SessionError for good |
| `UserLoops.PassesOver` | `src/aliro_actuator/access_protocol/user_device.py:2116-2142` | GET DATA and a SELECT of another application change nothing, whatever the state |
| `UserLoops.ControlFlowLeads` | `src/aliro_actuator/access_protocol/user_device.py:359-362` | a CONTROL FLOW ends the session; the main loop begins anew, and a single transaction returns with or without its session |
| `UserLoops.BleLeads` | `src/aliro_actuator/access_protocol/user_device.py:368-385` | what a BLE message leads to in both loops |
| `UserLoops.FirstLeads` | `src/aliro_actuator/access_protocol/user_device.py:246-262` | before the first SELECT of a run on NFC, nothing else is taken |
| `UserEngines.ExchangeServes` | `src/aliro_actuator/access_protocol/user_device.py:1577-1810` | an accepted EXCHANGE leaves the performed store and an answer with the reads of the mailbox as it was, sealed by the engine in step |
| `UserEngines.StepUpGuardIsDead` | `src/aliro_actuator/access_protocol/user_device.py:1630-1680` | in whatever state an EXCHANGE is entered, the state has been updated before the step-up permission is tested, and the test does not fire |
| `UserEngines.StepUpMailboxIsServed` | `src/aliro_actuator/access_protocol/user_device.py:1670-1680` | so the requests of an EXCHANGE behind an ENVELOPE are performed like any others |
| `UserStore.RunIsExchanges` | `src/aliro_actuator/access_protocol/user_device.py:218` | over every run of the device, mailbox and log are those of a run of accepted EXCHANGEs; no end of a session, failure or restart changes a byte or clears the log |
| `UserStore.DeviceAtomicSessions` | `src/aliro_actuator/access_protocol/user_device.py:1778-1799` | after every run of the device, one more input: no byte changes while an atomic session is open, and bytes change only by an EXCHANGE that applies the pending log and its own requests |
| `UserDeviceObject.UserDevice.Round` | `src/aliro_actuator/access_protocol/user_device.py:319-385` | one round of either loop, with everything that the handlers do to session, engines, mailbox, log and stored keys on every path, is one step of the machine that the run theorems are about; new engines are fresh objects, and old ones are changed in place |
| `UserDeviceObject.UserDevice.Serving` | `src/aliro_actuator/access_protocol/user_device.py:410-484` | the loop over any list of inputs is a run of that machine, so every run theorem holds of the object |
| `ReaderFailure.DecodeParts` | `src/aliro_actuator/access_protocol/reader.py:1249-1256` | the index loop takes the data apart at each two-byte length, also where the last part is cut short |
| `ReaderFailure.DecodeReadData` | `src/aliro_actuator/access_protocol/reader.py:1239-1267` | the three ways in which read data and requests may disagree; data without a request list raises TypeError |
| `ReaderFailure.FailureProcessOnce` | `src/aliro_actuator/access_protocol/reader.py:489-539` | one failure process sends at most one failure command and nests at most one level deeper |
| `ReaderFailure.FailureTerminates` | `src/aliro_actuator/access_protocol/reader.py:489-539` | for every peer and every list of calls in a session, nesting is at most two deep and at most one failure command is sent |
| `ReaderFailure.SessionEndsIff` | `src/aliro_actuator/access_protocol/reader.py:489-539` | on NFC the first failure process ends the session if and only if there is none, or its command can be built and the peer acknowledges it |
| `ReaderFailure.ExchangeEnds` | `src/aliro_actuator/access_protocol/reader.py:1193-1232` | inside a failure process, an EXCHANGE never ends the session, and succeeds if and only if it is acknowledged |
| `ReaderFailure.ControlFlowEnds` | `src/aliro_actuator/access_protocol/reader.py:1054-1093` | inside a failure process, a CONTROL FLOW ends the session if and only if it is acknowledged |
| `ReaderFailure.BleSessionEndsIff` | `src/aliro_actuator/access_protocol/reader.py:489-539` | on BLE the first failure process ends the session if and only if there is none, no EXCHANGE is sent (no secure channel, or the state is STATUS_WORD or B1_B2_ERROR), the peer acknowledges the EXCHANGE, or that times out on a link; and which messages have left by then |
| `ReaderFailure.NfcMessages` | `src/aliro_actuator/access_protocol/reader.py:489-539` | the same on NFC, with the CONTROL FLOW that takes the place of an EXCHANGE |
| `ReaderFailure.ExchangeReplies` | `src/aliro_actuator/access_protocol/reader.py:1187-1232` | which failure process each reply to an EXCHANGE starts, with which code and state, and which error is raised behind it |
| `ReaderFailure.ControlFlowReplies` | `src/aliro_actuator/access_protocol/reader.py:1070-1093` | the same for a CONTROL FLOW |
| `ReaderFailure.QuietFailures` | `src/aliro_actuator/access_protocol/reader.py:489-504` | a second failure process does nothing, and one in test mode ends the session without a message |
| `ReaderObject.ReaderDevice.FailureProcess` | `src/aliro_actuator/access_protocol/reader.py:489-539` | the mutual recursion terminates on the object itself, which ends as `SessionEndsIff` and `FailureTerminates` say |
| `ReaderObject.ReaderDevice.HandleControlFlow` | `src/aliro_actuator/access_protocol/reader.py:1054-1093` | the session ends if the command was answered in the right form; any other answer starts the failure process and its own error is raised behind it |
| `ReaderObject.ReaderDevice.HandleExchange` | `src/aliro_actuator/access_protocol/reader.py:1095-1267` | the result or error for every reply of the peer, also for a command that could not be built, and the session, the flag and the messages sent behind any failure process that the reply starts |
| `ReaderObject.ReaderDevice.HandleTimeout` | `src/aliro_actuator/access_protocol/reader.py:316-320` | a timeout ends the session and is reported only on a BLE link |
| `ExchangeCodec.BuildRequests` | `src/aliro_actuator/access_protocol/reader.py:1132-1162` | the three loops build reads, writes and sets in that order if and only if every number fits its field, and else raise OverflowError |
| `ExchangeCodec.RequestObjs` | `src/aliro_actuator/access_protocol/reader.py:1132-1175` | the objects that the device parses are those of that list |
| `ExchangeCodec.ParsesObjects` | `src/aliro_actuator/access_protocol/apdu.py:698-890` | the objects in a byte string are found again, one after the other |
| `ExchangeCodec.MailboxRoundTrip` | `src/aliro_actuator/access_protocol/apdu.py:698-890` | the mailbox commands that the reader writes are parsed to the three lists it was called with, each in order, and the atomic flag |
| `ExchangeCodec.ExchangeRoundTrip` | `src/aliro_actuator/access_protocol/apdu.py:2139-2197` | the same through the whole EXCHANGE payload; no request at all leaves no mailbox command |
| `ExchangeCodec.ParsedRequests` | `src/aliro_actuator/access_protocol/apdu.py:698-890` | whatever bytes are parsed, the request lengths are those that the mailbox code relies on |
| `ExchangeCodec.ParseErrors` | `src/aliro_actuator/access_protocol/apdu.py:698-890` | whatever bytes are parsed, the errors are TlvError, IndexError and InvalidCommandDataError |
| `ExchangeAccepts.FirstMeans` | `src/aliro_actuator/access_protocol/tlv.py:127-176` | a value looked up by its tag is that of the first object with the tag, and there is none if and only if no object has it |
| `ExchangeAccepts.MailboxAcceptedIff` | `src/aliro_actuator/access_protocol/apdu.py:755-792` | checked mailbox commands are accepted if and only if the atomic flag is there and has one byte, every read has four and every set five; the three lists and the flag are what they hold |
| `ExchangeAccepts.ExchangeAcceptedIff` | `src/aliro_actuator/access_protocol/apdu.py:728-888` | of the payloads that the checker lets through exactly those are accepted whose mailbox commands, status, notification (with error and descriptor of the reader) and URSK are well formed, said by the objects in them |
| `ExchangeEndToEnd.InRangeIsAccepted` | `src/aliro_actuator/access_protocol/user_device.py:1655-1725` | requests in range on a permitted mailbox pass all checks |
| `ExchangeEndToEnd.AcceptedIff` | `src/aliro_actuator/access_protocol/user_device.py:1655-1725` | for every list of requests, by offsets and lengths: accepted if and only if there is none, or all are permitted and in range; a missing mailbox and a request out of range are answered, a missing permission is not |
| `ExchangeEndToEnd.DeviceRefuses` | `src/aliro_actuator/access_protocol/user_device.py:1655-1725` | a genuine EXCHANGE with a refused request changes no byte and no log entry, seals 00 02 FF FF or nothing, and ends the session |
| `ExchangeWritten.WrittenMeans` | `src/aliro_actuator/access_protocol/user_device.py:1778-1799` | the mailbox behind a call, byte for byte in the terms of its caller: the last write over the byte decides, without one the last set, else it stays |
| `ExchangeEndToEnd.ReadsAreSlices` | `src/aliro_actuator/access_protocol/user_device.py:1766-1776` | the reads of the device are the slices that the caller of the reader asked for |
| `ExchangeEndToEnd.AnswerRoundTrip` | `src/aliro_actuator/access_protocol/reader.py:1239-1267` | the parts that the device frames are the parts that the reader returns, in order, also when they are empty |
| `ExchangeEndToEnd.PartsDecide` | `src/aliro_actuator/access_protocol/reader.py:1239-1267` | what the reader makes of any number of parts with any number of requests, or with no list of them |
| `ExchangeEndToEnd.DeviceServes` | `src/aliro_actuator/access_protocol/user_device.py:1577-1810` | a genuine EXCHANGE passes decryption, counters and checks and is served, and what the loop does behind it depends on what sending the answer raised |
| `ExchangeEndToEnd.DevicePerforms` | `src/aliro_actuator/access_protocol/user_device.py:1697-1810` | for all requests in range on a permitted mailbox without an open atomic session, the device applies all sets and then all writes and seals the requested slices of the mailbox as it was, whatever becomes of the answer |
| `ExchangeLengths.PacketLengthIs` | `src/aliro_actuator/access_protocol/reader.py:1132-1175` | how long the packet is, from the number of requests and the lengths of the writes |
| `ExchangeLengths.AnswerLengthIs` | `src/aliro_actuator/access_protocol/user_device.py:1801-1808` | how long the answer is: 20 bytes, and each requested slice with two more |
| `OverWire.SeesPacket` | `src/aliro_actuator/access_protocol/apdu.py:1602-1656` | the command that arrives has the packet for its data, the header of its kind, and the Le that the caller can compute |
| `OverWire.FitsIff` | `src/aliro_actuator/access_protocol/apdu.py:2357-2408` | the answer is one response if and only if it fits the limit; several if the limit is positive, none if it is negative, and ValueError if it is 0 |
| `OverWire.Carries` | `src/aliro_actuator/access_protocol/apdu.py:1491-1697` | at the end of every run the reader has the answer if and only if that is one response or, for an ENVELOPE, several; else sending it raised the class error, ValueError or nothing, and the reader is still waiting |
| `OverWire.CanBeCarried` | `src/aliro_actuator/access_protocol/apdu.py:1491-1697` | every packet that can be built has such a run, with any answer |
| `ExchangeCall.CallReturnsIff` | `src/aliro_actuator/access_protocol/reader.py:1095-1267` | the call of `handle_exchange` returns the requested slices of the mailbox as it was, in request order, if and only if the command can be built and 20 + sum(2 + length) is within the device's limit for one response; then the engines are in step again. If only the answer is too long, all sets and writes were applied, the caller gets an error, and the device's session is over; if the command was refused, nothing happened but that the reader used up a number |
| `ExchangeCall.CallEnds` | `src/aliro_actuator/access_protocol/reader.py:1095-1267` | a call whose command is built or refused has an end, and so the theorem speaks of it |
| `ExchangeCall.EndsOnlyIf` | `src/aliro_actuator/access_protocol/apdu.py:2334-2340` | no other call has one |
| `ExchangeCall.CallHangs` | `src/aliro_actuator/access_protocol/apdu.py:2334-2340` | in the remaining case the cutting loop of the command never ends |
| `ExchangeCall.StatusOfCall` | `src/aliro_actuator/access_protocol/reader.py:1187-1213` | whatever messages come in: an answer that decides with an error status starts the failure process in the state STATUS_WORD, and the call raises that status unless the failure process raises another error; the call returns only if an answer with the success status decides |
| `ExchangeLimits.LongReadIsLost` | `src/aliro_actuator/access_protocol/apdu.py:1567-1574` | a read of 300 bytes with a set, on NFC: the set is applied, the caller gets an error, and the session of the device is over |
| `ExchangeLimits.LongWriteIsNotSent` | `src/aliro_actuator/access_protocol/apdu.py:2308-2316` | a write of 250 bytes, on BLE: MessageTooLongError, the device untouched, and the engines out of step |
| `ExchangeLimits.DeviceIsReached` | `src/aliro_actuator/access_protocol/user_device.py:1086-1234` | both begin at a device that a run from the start reaches: SELECT on NFC, and a fast AUTH0 |
| `EnvelopeCall.EnvelopeReturnsIff` | `src/aliro_actuator/access_protocol/reader.py:1288-1319` | the call of `handle_envelope` returns the document of the device, however long, if and only if the command can be built and the limit of the device for one response is at least 1; then the state is ENVELOPE_DONE and the step-up engines are in step again. With a limit of 0 the loop of the device ends with ValueError, else the session goes on out of step; the mailbox is never touched |
| `EnvelopeCall.EnvelopeEnds` | `src/aliro_actuator/access_protocol/reader.py:1498-1525` | a call whose command is built, below 2^24 bytes, or refused has an end, and so the theorem speaks of it |
| `BleMessages.FrameRoundTrip` | `src/aliro_actuator/transport_protocol/ble_message_format.py:60-75` | a framed message is read back, and trailing bytes are left out |
| `BleMessages.CutFrameParses` | `src/aliro_actuator/transport_protocol/ble_message_format.py:60-75` | a frame that is cut short is read with what is left of its payload |
| `BleMessages.AttributeRoundTripIff` | `src/aliro_actuator/transport_protocol/ble_message_format.py:1269-1296` | an attribute at any offset is read back as written if and only if it has no empty value; an empty one is read as none |
| `BleMessages.BuildPayload` | `src/aliro_actuator/transport_protocol/ble_message_format.py:894-1073` | the builders concatenate the attributes in order |
| `BleMessages.ParseSetup` | `src/aliro_actuator/transport_protocol/ble_message_format.py:505-630` | the loop with its running offset returns the attributes that `ParsesAttributes` predicts, or the first error |
| `BleMessages.ParsesAttributes` | `src/aliro_actuator/transport_protocol/ble_message_format.py:505-630` | attributes with the expected ids, and perhaps one more, are all recovered wherever they start |
| `BleMessages.AttributesDecide` | `src/aliro_actuator/transport_protocol/ble_message_format.py:505-630` | what the parser of a message makes of any list of readable attributes: a wrong id is refused, a missing attribute raises IndexError, and more than one behind the expected ones are left alone |
| `BleMessages.SetupParses` | `src/aliro_actuator/transport_protocol/ble_message_format.py:505-630` | in particular those of every M1 to M4 in range, and those of its mandatory part, without the vendor attribute |
| `BleMessages.AttributesInjective` | `src/aliro_actuator/transport_protocol/ble_message_format.py:894-1073` | two messages of one kind with the same attributes have the same fields |
| `BleMessages.SealedFrameOpens` | `src/aliro_actuator/transport_protocol/ble_message_format.py:652-707` | the associated data of both sides agrees, so facing engines recover every frame; each advances one counter for the headers 0x01 to 0x04, and under any other header the frame arrives as it is |
| `BleMessages.FrameOpensIff` | `src/aliro_actuator/transport_protocol/ble_message_format.py:652-707` | a frame opens to a text if and only if it is the seal of that text under the expected number and under header, id and length of this frame |
| `BleMessages.SetupRoundTrip` | `src/aliro_actuator/transport_protocol/ble_message_format.py:505-707` | built, sealed, framed, unframed, opened and parsed: every attribute arrives, and the engines still face each other |

## Left out

- ExchangeCodec.ExchangeRoundTrip: the mailbox commands together are shorter than 65536 bytes. This is the code's own bound: from there on the library writes a length of four bytes, and `verifySequence` takes its first byte 0x83 for a length of 131 (`tlv.py:389-401`).
- ExchangeCodec.MailboxRoundTrip: the data of one write are shorter than 65534 bytes, for the same reason.
- ExchangeCodec.RequestObjs: as MailboxRoundTrip.
- ExchangeLengths.PacketLengthIs: assumes the bound of ExchangeRoundTrip.
- ExchangeCall.CallReturnsIff: assumes the same bound, and that the channel carries nothing but the messages of the exchange and busy events until the exchange has ended.
- Tlv.VerifyMeetsSpecification: excludes lists with an unexpected object of a longer length form, which the loop cannot follow; `UnfollowedSkips` says what it does with them.
- Tlv.VerifyObjects: the same.
- Tlv.UnexpectedTailHidesOrder: the same.
- Tlv.MetFromStart: excludes, in the notification table, an object with the tag 0x9F00, which is equal to the wildcard; there the table as it stands at each object decides, as in `VerifyMeetsSpecification`.
- EnvelopeCall.EnvelopeReturnsIff: the CBOR map and the object around an encrypted packet are the parameter `Wrapping`, of which only `Wrapping.Correct` is assumed; the counters have not reached the end of their four bytes; and the channel carries nothing but the messages of the call and busy events until it has ended.
- EnvelopeCall.EnvelopeEnds: the wrapped command is shorter than 2^24 bytes, which is as much as the device can rebuild (`RebuiltIff`).
- ReaderFailure.FailureTerminates: the peer answers by the number of the message and not by its contents, which the model does not hold.
- UserSafety.AuthenticatedStateSafety: the step machine receives commands whole; their way through the chaining layer is composed for EXCHANGE and ENVELOPE only, in `ExchangeCall` and `EnvelopeCall`.
- UserHandshake.OutOfOrderEndsSession: assumes that what parsing a decrypted payload raises is not one of the two errors that the loops pass over; `ExchangeCodec.ParseErrors` shows that this is so.
- UserExchanges.ExchangeServed: stated for a device with a mailbox; without one an EXCHANGE with requests is refused, as in `ExchangeEndToEnd.AcceptedIff`.
- UserDeviceObject.UserDevice.Serving: the nested loops of the device are one loop over a phase, and connecting is part of starting a session.
- Hardware drivers, sockets and the event loop; a transport is its queue of messages and whether its timer was started.
- Real cryptography: AES-GCM is the parameter `Aead`, ECDSA results are inputs, and keys are given to each engine.
- Certificates, access and revocation documents, and the CBOR in them.
- The `ber_tlv` library, of which only tags of up to two and lengths of up to three bytes are written out in `ExchangeCodec`; its own recursion into constructed objects, in the descriptor of a reader, is not.
- The checks of single fields in `parse_as_*`, except for GET RESPONSE, EXCHANGE and ENVELOPE; what they raise is the input `fault`.
- The contents of notifications; the device looks at their tags only.
- The values of persistent keys; the device knows for which readers it has one.
- The storage classes of reader and device, and the key derivations of the reader.
- Wall-clock timeouts; a timeout is an input.
- Sending an error status is taken to succeed; sending an answer may raise.
- `max_data_len`, `skip_command`, `check_validity`, `extra_tlv` and the handlers with wrong tags, which exist for testing only.
- UWB parameter negotiation, ranging loops and RKE, except for the bytes of M1 to M4.
- The methods of `UserDevice` below `Round` have no rows: each is tied to the function of the same name in `UserMachine`, and what they do together is `Round`.
- The four parsers of M1 to M4 are one loop over the list of ids each of them expects.
