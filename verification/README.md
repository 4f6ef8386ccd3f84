# A verified model of the TSP tunnel client

The repository is a client for the Tunnel Setup Protocol with the two libraries beside it: the
configuration library (`gw6c-config`) and the messaging library (`gw6c-messaging`) through which the client
service and its user interface talk. This project models the parts whose correctness spans loops, objects,
threads or whole runs, and proves what they promise. `dafny verify dfyconfig.toml` checks everything.

Code that changes state is modelled as classes and methods over fields and arrays, each proved against a
specification function of its inputs or of the old state; lemmas then prove the promises about those
functions, over all inputs and all runs.

| component | modules | main results |
|---|---|---|
| IPC fragmentation | `Servent`, `ServentProperties` | every interleaving delivers exactly the messages sent and none leads into a dead end; on any packet stream, exactly when a read succeeds and how it fails |
| send queue, semaphore, reconnecting manager | `CommunicationsMgr`, `CommunicationsProperties`, `CommunicationsThreads` | queue and token conservation in every interleaving; when the sender's assertion can fail and when a receiver is forgotten; every reconnection attempt and the fatal state |
| message layouts over the IPC | `Messages`, `EndToEnd` | records round-trip field by field, through fragmentation and interleaving; broker lists exactly when they have one entry |
| streaming MD5 | `Md5Spec`, `Md5Properties`, `Md5Vectors`, `Md5Stream` | any cutting into updates gives the digest of section 3 of RFC 1321, whose functions are pinned bit by bit and whose tables by two digests of section A.5 |
| deque, quicksort, indexed search | `Sorting`, `Deque` | a linked chain that refines a sequence; in-place sorting and when it leaves its range; search succeeds exactly when a linear one would |
| reliable UDP exchange | `Rudp`, `RudpProperties` | a reply is always the reply to the same exchange; without one a call failed or exactly 8 datagrams (3 without a peer) were sent; the sample is timed from the transmission answered |
| keepalive | `Keepalive`, `KeepaliveProperties` | fatal exactly at the deadline; the interval converges to its zone and stays |
| growable buffer and typed values | `Buffer` | refines a byte sequence through compaction and growth; puts and gets match |
| dynamic DNS update | `Dns`, `DnsProperties` | an independent decoder recovers the request exactly when labels are short |
| configuration file | `NameValue`, `NameValueProperties`, `NameValueLayout` | a file means its assignments, however they are laid out; exactly what survives save and load; runs of load, set, remove and save-and-load act as on a map |
| base64, Internet checksum | `Base64`, `Checksum` | refinement of the definitions in RFC 4648 and RFC 1071, round trip, verification |

`Bytes` holds the small vocabulary they share.

## What the code does not promise

Some expected properties are false of the code. The model keeps the code as it is, shows inputs or runs that
fail, and proves for all inputs or runs when the property holds:

- The sender's assertion that its queue is not empty can fail: a post that pushes before a disconnection and
  releases the semaphore after the reset leaves a token for an empty queue. Runs without such a post are safe
  (`CommunicationsMgr.SenderAlwaysFindsMessage`); after one, `CommunicationsProperties.StrayedMayCrashIff` says
  from which states the assertion can still fail although no further post does the same.
- A receiver thread that fails before the manager has set the connected state is forgotten: the manager stays
  connected without a receiver until the sender fails, and exactly then
  (`CommunicationsProperties.ForgottenExactly`).
- A read does not ask that a message begin with fragment 0, so lost leading packets go unnoticed
  (`ServentProperties.LostHeadGoesUnnoticed`).
- Distances in a broker list are read at the wrong place from the second broker on
  (`Messages.BrokerListRoundTripsIff`).
- A domain label of more than 63 octets is encoded although no decoder can read it
  (`DnsProperties.UpdateDecodesExactly`).
- Setting a variable accepts any name and any value, but only some survive saving and loading
  (`NameValueProperties.SetSurvivesIff`), a file can hold names that do not
  (`NameValueProperties.LoadIsWellFormedIff`), and a line that reaches the size of the reader's line buffer makes
  a saved file unreadable (`NameValueProperties.SaveThenLoad`).
- A configuration line without `=` is not refused as the comment beside the code says: it is stored as a
  variable with an empty value (`NameValueProperties.LineWithoutSeparatorIsStored`). The reader throws exactly
  on lines of nothing but `=` (`NameValue.NameValueParser.ReadConfigurationData`).
- A string of more than 256 KiB can be put into a buffer but not got (`Buffer.ParseEncode`).
- The keepalive never looks at the clock's microseconds, so its first event can come up to a second early
  (`KeepaliveProperties.DueIsInTimeIff`).
- Sorting reads the cell behind its index when the first item is larger than every other one
  (`Sorting.Partition`, `Deque.Queue.Sort`).
- All queues share one index, so a seek in a queue searches the items of the queue that was sorted last
  (`Deque.OtherQueueIsSearched`).
- The variance term of the round-trip estimator is never decayed, unlike in the usual estimator
  (`RudpProperties.SteadySamples`).
- Sequence numbers repeat after 2^28 exchanges (`RudpProperties.SequencesCollideIff`).

## Model

| member | source | states |
|---|---|---|
| `Servent.Servent.WriteData` | gw6c-messaging/src/servent.cc:525-624 | a message of more than 64260 bytes is refused and changes nothing; otherwise the pipe gets exactly the packets of `Fragments` and the message number advances modulo 64, or, only after the pipe failed or stopped short, a proper initial part of them and the number stays; the `assert(false)` on the fragment number is unreachable |
| `Servent.Servent.ReadData` | gw6c-messaging/src/servent.cc:384-501 | over any packet stream and any stalls, the message that `Reassemble` finds, with exactly its packets consumed, or the error at the first packet that breaks the rules, with what was read before it; only when the pipe itself fails, exactly the payloads of the packets taken, which end no message; nothing is written behind the read position, which never passes the caller's buffer |
| `Servent.Servent.TakePacket` | gw6c-messaging/src/servent.cc:429-492 | the checks on one packet, in their order, with the state they leave |
| `Bytes.CopyInto` | gw6c-messaging/src/servent.cc:483-487 | the data lie at the given place and the rest of the buffer stays |
| `Servent.Pipe.CanRead` | gw6c-messaging/src/servent.cc:403-418 | environment: packets become readable in order, only finitely many stalls |
| `Servent.Pipe.Write` | gw6c-messaging/src/servent.cc:587-596 | environment: one packet goes out whole, or nothing of it does |
| `ServentProperties.FragmentsReadBack` | gw6c-messaging/src/servent.cc:384-624 | a written message, whatever follows it in the pipe, is read back exactly if and only if the buffer holds it; otherwise the small buffer is reported with only whole packets kept and the rest of the message left behind |
| `ServentProperties.FragmentNumbers` | gw6c-messaging/src/servent.cc:546-614 | a message of n bytes makes ceil(n/1020) packets, never more than 63, numbered consecutively from 0 under one message number, all acceptable to the reader |
| `ServentProperties.FragmentIs` | gw6c-messaging/src/servent.cc:546-614 | packet k of a message, octet by octet: header value 10, type 0x20 to 0x23 for only, first, middle and last, the 1020 octets at 1020 k or what is left there |
| `ServentProperties.ReadSucceedsExactlyOnRuns` | gw6c-messaging/src/servent.cc:400-500 | for an arbitrary stream: a read succeeds if and only if a run (one message number, consecutive fragment numbers, only the last packet terminal) heads the stream and its payloads fit; it delivers their concatenation and leaves the rest |
| `ServentProperties.ReadFailsExactly` | gw6c-messaging/src/servent.cc:400-500 | for an arbitrary stream: a read fails if and only if something is wrong with a packet after packets that begin a message: no packet of the protocol, another message number, a fragment number out of order, no room in the buffer, noticed in this order; it reports that, keeps the octets before it and has used up the packet |
| `ServentProperties.RunFromIsRun` | gw6c-messaging/src/servent.cc:440-470 | the packet-by-packet checks of the reader accept exactly the runs as defined on whole sequences |
| `ServentProperties.CompleteFrom` | gw6c-messaging/src/servent.cc:400-500 | the same from the middle of a message |
| `ServentProperties.LostHeadGoesUnnoticed` | gw6c-messaging/src/servent.cc:458-470 | the reader does not check for fragment 0: whatever number k of leading packets is lost, the remainder of the message is delivered with no error, and it is the message only for k = 0 |
| `Servent.ReassembleResumes` | gw6c-messaging/src/servent.cc:403-497 | reassembly may stop after any packets that end no message and resume with the next |
| `ServentProperties.Move` | gw6c-messaging/src/servent.cc:525-624 | every step of writer or reader keeps fragment numbers in the channel within 0 to 62 |
| `ServentProperties.StepKeepsOutcome` | gw6c-messaging/src/servent.cc:384-624 | no step of either side changes what will finally be delivered |
| `ServentProperties.ReceiveFollowsReads` | gw6c-messaging/src/servent.cc:384-501 | a thread that takes packets one by one does what successive reads do |
| `ServentProperties.StreamDelivered` | gw6c-messaging/src/servent.cc:525-624 | reading the packets of any list of messages, message numbers wrapping, gives that list |
| `ServentProperties.EveryInterleavingDelivers` | gw6c-messaging/src/servent.cc:384-624 | for every list of messages, first message number and interleaving of writer, reader and stalls: no read fails, the deliveries are an initial part of the messages sent, and all of them once the channel has drained |
| `ServentProperties.EveryMessageCanArrive` | gw6c-messaging/src/servent.cc:384-624 | from every state that any interleaving reaches writer and reader can go on until all messages of 1 to 64260 bytes are delivered |
| `CommunicationsMgr.ApplyKeepsQueueInvariant` | gw6c-messaging/src/communicationsmgr.cc:402-505 | every step of every thread keeps: accepted messages = sent ones followed by the queue, at most 512 queued, semaphore + token held + posts under way = queue length (+ stray tokens) |
| `CommunicationsMgr.ApplyKeepsManagerInvariant` | gw6c-messaging/src/communicationsmgr.cc:110-298 | every step keeps the agreement between the manager's place in its loop, the status, the threads that exist, the servent and the error count |
| `CommunicationsMgr.RunKeepsInvariant` | gw6c-messaging/src/communicationsmgr.cc:110-505 | both invariants hold in every state of every interleaving |
| `CommunicationsMgr.ReconnectsAreClean` | gw6c-messaging/src/communicationsmgr.cc:110-116 | for every run from the start: Initialize is only entered with a pending connection, no servent and no threads; the status is fatal exactly when the last four initialisations failed, and never more fail in a row |
| `CommunicationsMgr.FatalIsForever` | gw6c-messaging/src/communicationsmgr.cc:228-298 | once the fatal state is reached no step of any thread leaves it or tries again |
| `CommunicationsMgr.AssertionFailsExactly` | gw6c-messaging/src/communicationsmgr.cc:417-422 | when the sender takes a token, its assertion that the queue is not empty fails if and only if the releases that strayed into this connection are as many as the tokens and posts under way |
| `CommunicationsMgr.CalmRun` | gw6c-messaging/src/messagesender.cc:86-120 | without such posts no stray token ever arises |
| `CommunicationsMgr.SenderAlwaysFindsMessage` | gw6c-messaging/src/communicationsmgr.cc:402-505 | in every run in which no reset falls between push and release of a post the assertion never fails and tokens add up exactly to the queue length |
| `CommunicationsMgr.PostAcrossResetCrashes` | gw6c-messaging/src/messagesender.cc:86-120 | the condition is needed: a run in which a post straddles a reset and the assertion fails |
| `CommunicationsProperties.ApplyKeepsSound` | gw6c-messaging/src/communicationsmgr.cc:110-505 | every step keeps: the receiver is started before the connection is reported, the queue is empty until then, and a connected manager has a sender |
| `CommunicationsProperties.ForgottenStep` | gw6c-messaging/src/communicationsmgr.cc:254-263 | one step: the manager is connected without a receiver if it has just set that state after the receiver failed, or was so before and the sender does not fail; no other way in or out |
| `CommunicationsProperties.ForgottenExactly` | gw6c-messaging/src/communicationsmgr.cc:228-298 | for every run: it ends connected without a receiver if and only if at some point the manager set the connected state after the receiver had failed and the sender has not failed since |
| `CommunicationsProperties.IdleStaysForgotten` | gw6c-messaging/src/communicationsmgr.cc:228-298 | without tokens and without new posts no steps of any threads make the manager reconnect |
| `CommunicationsProperties.ForgottenCanReconnect` | gw6c-messaging/src/communicationsmgr.cc:402-505 | from every such state a post, where one is needed, and a failing sender lead to the disconnected status |
| `CommunicationsProperties.EarlyFailureIsForgotten` | gw6c-messaging/src/communicationsmgr.cc:254-263 | such runs exist |
| `CommunicationsProperties.SenderMeetsStrayToken` | gw6c-messaging/src/messagesender.cc:86-120 | with a sender at work, a release that strays into its connection can always make its assertion fail: it only has to send everything first |
| `CommunicationsProperties.SafeStep` | gw6c-messaging/src/messagesender.cc:86-120 | a state that is not at risk stays so, and the sender finds its message, in every step without a post across a reset |
| `CommunicationsProperties.RiskCanCrash` | gw6c-messaging/src/messagesender.cc:86-120 | from every state at risk some steps without a post across a reset make the assertion fail |
| `CommunicationsProperties.StrayedMayCrashIff` | gw6c-messaging/src/messagesender.cc:86-120 | for every run that has not crashed: the assertion can still fail, with no further post across a reset, if and only if a stray release is yet to come and the status is not fatal, or one has come and there is a sender or will be one before the next reset |
| `CommunicationsThreads.OthersDoNotDisturb` | gw6c-messaging/src/communicationsmgr.cc:228-505 | what each thread may rely on while the others run: the manager alone moves its own place and counters, nothing touches a running sender's place or the head of its queue |
| `CommunicationsThreads.CommunicationsManager.Record` | gw6c-messaging/src/communicationsmgr.cc:228-505 | the fields stay a state that the machine reaches by the recorded steps |
| `CommunicationsThreads.CommunicationsManager.PostMessage` | gw6c-messaging/src/messagesender.cc:86-93 | accepts exactly when connected with fewer than 512 queued, and then raises the semaphore once; a refused message changes nothing |
| `CommunicationsThreads.CommunicationsManager.Reset` | gw6c-messaging/src/messagesender.cc:109-120 | empty queue, semaphore at zero |
| `CommunicationsThreads.CommunicationsManager.SetState` | gw6c-messaging/src/communicationsmgr.cc:356-362 | status set, queue enabled exactly while connected |
| `CommunicationsThreads.CommunicationsManager.SenderStep` | gw6c-messaging/src/communicationsmgr.cc:412-502 | each piece of the sender's loop does the machine's step; its queue assertion is proved where it stands |
| `CommunicationsThreads.CommunicationsManager.SenderExit` | gw6c-messaging/src/communicationsmgr.cc:412-502 | every way out of the sender's loop |
| `CommunicationsThreads.CommunicationsManager.QueueIsReady` | gw6c-messaging/src/communicationsmgr.cc:417-458 | with a token in hand, or a message being written, the queue is not empty and its head is still that message |
| `CommunicationsThreads.CommunicationsManager.SendFront` | gw6c-messaging/src/communicationsmgr.cc:454-500 | the head of the queue is written, and removed only if the peer took it; if the write fails it stays and the status is disconnected |
| `CommunicationsThreads.CommunicationsManager.SenderRound` | gw6c-messaging/src/communicationsmgr.cc:412-502 | one round: idle exactly without a token; otherwise one probe of the pipe, whose result decides: the token is given back, the thread ends disconnected, or the head of the queue is written |
| `CommunicationsThreads.CommunicationsManager.SenderWork` | gw6c-messaging/src/communicationsmgr.cc:402-505 | over any number of rounds among the other threads: what is sent grows in the order of acceptance and is what the peer took, one message for every probe that found nothing waiting unless its write failed; each token there at the start makes the sender probe, one a round; the thread ends only after a probe or a write failed or when the manager waits for it, and then at once |
| `CommunicationsThreads.CommunicationsManager.CleanupInstance` | gw6c-messaging/src/communicationsmgr.cc:180-210 | whatever the threads were doing: both are gone, there is no servent, the queue is empty and the semaphore at zero |
| `CommunicationsThreads.CommunicationsManager.Initialize` | gw6c-messaging/src/communicationsmgr.cc:110-165 | its assertions are proved where they stand, on every reconnect; it succeeds exactly when the peer answers, and then both threads run |
| `CommunicationsThreads.CommunicationsManager.Reconnect` | gw6c-messaging/src/communicationsmgr.cc:243-289 | exactly one more initialisation, whose outcome is what the peer answered; then connected, disconnected, or fatal after four failures in a row |
| `CommunicationsThreads.CommunicationsManager.Work` | gw6c-messaging/src/communicationsmgr.cc:228-298 | a round that finds the status disconnected initialises once, with the peer's answer as the outcome; as long as these are failures every round adds one, until the fourth in a row makes the status fatal; fatal means exactly that, and then nothing more happens |
| `Md5Stream.Step` | tspc-advanced/src/lib/md5c.c:120-143 | assigning the macro of the round to its first variable, with the word, shift and constant of the table, is one operation of section 3.4 of RFC 1321, and the variables then change roles |
| `Md5Stream.Round1` | tspc-advanced/src/lib/md5c.c:249-269 | the sixteen unrolled steps of round 1, with their variables, words, shifts and constants, are operations 0 to 15 |
| `Md5Stream.Round2` | tspc-advanced/src/lib/md5c.c:271-291 | the sixteen unrolled steps of round 2, with their variables, words, shifts and constants, are operations 16 to 31 |
| `Md5Stream.Round3` | tspc-advanced/src/lib/md5c.c:293-313 | the sixteen unrolled steps of round 3, with their variables, words, shifts and constants, are operations 32 to 47 |
| `Md5Stream.Round4` | tspc-advanced/src/lib/md5c.c:315-335 | the sixteen unrolled steps of round 4, with their variables, words, shifts and constants, are operations 48 to 63 |
| `Md5Stream.Transform` | tspc-advanced/src/lib/md5c.c:243-344 | the state becomes the compression of the old state with the block |
| `Md5Stream.Encode` | tspc-advanced/src/lib/md5c.c:76-86 | words to octets, low octet first |
| `Md5Stream.Decode` | tspc-advanced/src/lib/md5c.c:94-101 | octets to words, low octet first |
| `Md5Spec.DecodeEncodeWords` | tspc-advanced/src/lib/md5c.c:76-101 | decoding undoes encoding |
| `Md5Stream.Context.Init` | tspc-advanced/src/lib/md5c.c:147-157 | a context that has absorbed nothing |
| `Md5Stream.Context.AddLength` | tspc-advanced/src/lib/md5c.c:173-177 | the two words of the bit count, carry and high bits included, advance by the length |
| `Md5Stream.CountAdvances` | tspc-advanced/src/lib/md5c.c:173-177 | that count is the bit length modulo 2^64 before and after every update |
| `Md5Stream.CountIndex` | tspc-advanced/src/lib/md5c.c:171 | bits 3 to 8 of the count are the length modulo 64 |
| `Md5Stream.Context.CompleteBlock` | tspc-advanced/src/lib/md5c.c:182-185 | the buffer, completed from the input, is compressed as the next block |
| `Md5Stream.Context.TransformBlocks` | tspc-advanced/src/lib/md5c.c:179-192 | completing the buffer and compressing the whole blocks that follow leaves the state of all whole blocks so far |
| `Md5Stream.LoopTestIff` | tspc-advanced/src/lib/md5c.c:187 | an update is safe if and only if the loop test, which adds 63 on 32-bit words, means what it says wherever the loop may stand |
| `Md5Stream.ShortUpdatesFit` | tspc-advanced/src/lib/md5c.c:187 | updates of at most 2^32 - 64 bytes are always safe |
| `Md5Stream.HashedSnoc` | tspc-advanced/src/lib/md5c.c:187-188 | one block more in the data is one compression more in the state |
| `Md5Stream.Context.Update` | tspc-advanced/src/lib/md5c.c:166-198 | for every safe update the context absorbs exactly the input: state = fold over whole blocks, buffer = last (length mod 64) bytes, count = bit length modulo 2^64 |
| `Md5Stream.Context.PadOut` | tspc-advanced/src/lib/md5c.c:205-220 | feeds exactly the padding of sections 3.1 and 3.2 of RFC 1321 |
| `Md5Stream.Context.Final` | tspc-advanced/src/lib/md5c.c:228-238 | the digest of everything absorbed, and the context wiped |
| `Md5Stream.DigestInPieces` | tspc-advanced/src/lib/md5c.c:147-238 | however a message is cut into safe updates, the digest is the MD5 of the whole message |
| `Md5Spec.PadLength` | tspc-advanced/src/lib/md5c.c:205-220 | padding gives a multiple of 64 octets and adds 9 to 72 |
| `Md5Spec.PadInjective` | tspc-advanced/src/lib/md5c.c:205-220 | no two messages have the same padded form |
| `Md5Spec.BlocksAppend` | tspc-advanced/src/lib/md5c.c:179-192 | cutting into blocks distributes over block-aligned concatenation |
| `Md5Spec.CompressAllAppend` | tspc-advanced/src/lib/md5c.c:179-192 | folding the compression may stop and resume anywhere |
| `Md5Properties.FChooses` | tspc-advanced/src/lib/md5c.c:111 | for all words: F has the bit of the second where the first has a one, and the bit of the third elsewhere |
| `Md5Properties.GChooses` | tspc-advanced/src/lib/md5c.c:112 | G has the bit of the first where the third has a one, and the bit of the second elsewhere |
| `Md5Properties.HIsParity` | tspc-advanced/src/lib/md5c.c:113 | H has a one where an odd number of its words have one |
| `Md5Properties.IComplements` | tspc-advanced/src/lib/md5c.c:114 | I has the complement of the second where the first has a one or the third a zero, and the second itself elsewhere |
| `Md5Spec.RotationMoves` | tspc-advanced/src/lib/md5c.c:117 | rotating by n places moves the low 32 - n bits up by n and brings the n high bits in below them |
| `Md5Vectors.EmptyDigest` | tspc-advanced/src/lib/md5c.c:104-344 | the digest of the empty message is the one of section A.5 of RFC 1321, operation by operation |
| `Md5Vectors.AbcDigest` | tspc-advanced/src/lib/md5c.c:104-344 | so is the digest of the message of the letters a, b and c |
| `Sorting.Round` | tspc-advanced/src/lib/deque.c:680-697 | one time round the loop: both scans and the swap, elements before i not larger and behind j not smaller than the pivot |
| `Sorting.Partition` | tspc-advanced/src/lib/deque.c:677-701 | rearranges only the range and leaves the pivot between elements not larger and not smaller; reads the cell after the range if and only if the first element is larger than every other one |
| `Sorting.QuickSort` | tspc-advanced/src/lib/deque.c:667-706 | for any total preorder, with a cell after the range that no element exceeds or with the largest element there at least twice: terminates, sorts the range, keeps its elements and everything outside it; the cell is never read when the largest element is there twice and always when the first is larger than every other one |
| `Sorting.NoStrictMaximumRight` | tspc-advanced/src/lib/deque.c:704 | behind the pivot the largest element is there at least twice again, if more than one is there |
| `Sorting.GuardedParts` | tspc-advanced/src/lib/deque.c:703-704 | both recursive calls are guarded again: the left one by the pivot, the right one as the whole was |
| `Sorting.PivotBounds` | tspc-advanced/src/lib/deque.c:703 | the pivot is the sentinel of the left call |
| `Sorting.SortedParts` | tspc-advanced/src/lib/deque.c:703-704 | sorting both sides of the pivot sorts the whole |
| `Deque.FirstMatchIs` | tspc-advanced/src/lib/deque.c:646-662 | what a search from the head finds: the first equal item, or that there is none |
| `Deque.Queue.Init` | tspc-advanced/src/lib/deque.c:134-142 | an empty chain |
| `Deque.Queue.First` | tspc-advanced/src/lib/deque.c:237-245 | cursor to the first item |
| `Deque.Queue.Last` | tspc-advanced/src/lib/deque.c:262-270 | cursor to the last item |
| `Deque.Queue.Next` | tspc-advanced/src/lib/deque.c:493-501 | cursor one item on, staying at the last |
| `Deque.Queue.Previous` | tspc-advanced/src/lib/deque.c:520-528 | cursor one item back, staying at the first |
| `Deque.Queue.PushHead` | tspc-advanced/src/lib/deque.c:287-328 | one fresh node in front, all other nodes kept, backward chain the mirror of the forward chain, sort flag cleared |
| `Deque.Queue.PushTail` | tspc-advanced/src/lib/deque.c:346-385 | the same at the end |
| `Deque.Queue.PopHead` | tspc-advanced/src/lib/deque.c:404-430 | the first item and node go, cursor to the new first; an empty queue stays as it is |
| `Deque.Queue.PopTail` | tspc-advanced/src/lib/deque.c:448-473 | the same at the end |
| `Deque.Queue.Find` | tspc-advanced/src/lib/deque.c:646-662 | stops exactly at the first match of a linear search, else at the last item; a queue of one item that does not match compares a null pointer |
| `Deque.Queue.CopyToIndex` | tspc-advanced/src/lib/deque.c:760-768 | the index holds the items in order, the position index the nodes in order |
| `Deque.Queue.SortedIndex` | tspc-advanced/src/lib/deque.c:760-772 | the index is the sorted items of the queue, the position index its nodes in chain order |
| `Deque.Queue.CopyFromIndex` | tspc-advanced/src/lib/deque.c:774-782 | the same nodes hold the sorted items |
| `Deque.Queue.Sort` | tspc-advanced/src/lib/deque.c:732-793 | same nodes, items sorted and a permutation of before, index and position index in agreement with the chain; the cell behind the index is never read when the largest item is there twice and always when the first is larger than every other one |
| `Deque.Queue.BSearch` | tspc-advanced/src/lib/deque.c:812-838 | a position of the index that matches, and -1 exactly when none does |
| `Deque.OutsideHalf` | tspc-advanced/src/lib/deque.c:820-832 | a key on one side of the middle element equals nothing on the other side |
| `Deque.Queue.SeekIndex` | tspc-advanced/src/lib/deque.c:867-874 | searches whatever the shared index holds and moves the cursor to the node it names |
| `Deque.Queue.Seek` | tspc-advanced/src/lib/deque.c:857-875 | with an index of its own: succeeds exactly when a linear search would, with the cursor on a matching node; sorts first if need be |
| `Deque.OtherQueueIsSearched` | tspc-advanced/src/lib/deque.c:857-875 | after another queue was sorted a seek does not find the queue's own item, and finds the other queue's |
| `Deque.Queue.Insert` | tspc-advanced/src/lib/deque.c:898-906 | the item is added and the queue is sorted and indexed again |
| `Rudp.AdjustedRto` | tspc-advanced/src/net/net_rudp.c:448-456 | the timeout is kept within 2 to 30 seconds |
| `Rudp.AdjustedRtoIsNearest` | tspc-advanced/src/net/net_rudp.c:448-456 | of all timeouts between 2 and 30 seconds the one used is closest to the wish |
| `Rudp.RttEngine.constructor` | tspc-advanced/src/net/net_rudp.c:306-368 | smoothed time 0, variance 0.5, timeout 2 seconds, sequence number 240, no backoff |
| `Rudp.RttEngine.UpdateEstimate` | tspc-advanced/src/net/net_rudp.c:394-411 | 7/8 of the old smoothed time and 1/8 of the sample, a quarter of the error added to the variance term, and the timeout is their sum with factor 4, kept within 2 to 30 seconds |
| `Rudp.RttEngine.AwaitReply` | tspc-advanced/src/net/net_rudp.c:217-281 | the wait is as long as the timeout; datagrams with another sequence number are skipped and none with this number is; a reply answers a datagram in the log with this number; a wait that runs out counts one retry and, if backing off, doubles the timeout up to 30 seconds; an error is a failed call |
| `Rudp.RttEngine.Transmit` | tspc-advanced/src/net/net_rudp.c:203-213 | each transmission carries the current clock |
| `Rudp.RttEngine.SendUntilAnswered` | tspc-advanced/src/net/net_rudp.c:182-281 | retransmits the same payload until a reply or a failed call, and gives up otherwise only after exactly 8 datagrams, 3 if no peer was ever heard; each datagram but the first follows a wait that ran out; the waits are as long as the timeout and double from the fourth on, up to 30 seconds |
| `Rudp.RttEngine.SendRecv` | tspc-advanced/src/net/net_rudp.c:143-303 | one exchange: all of this, the reply answers a datagram with this exchange's number, the estimator is fed the time since that very transmission, and the sequence number advances; an engine that failed once sends nothing more |
| `RudpProperties.SequencesCollideIff` | tspc-advanced/src/net/net_rudp.c:182 | two exchanges carry the same number if and only if they are a multiple of 2^28 apart |
| `RudpProperties.NumberNamesExchange` | tspc-advanced/src/net/net_rudp.c:256-258 | a logged datagram with this exchange's number was sent by this exchange, below 2^28 exchanges |
| `RudpProperties.Session` | tspc-advanced/src/net/net_rudp.c:143-303 | over a network that loses, duplicates and reorders, for a session of any length: every reply is the server's reply to the payload of an exchange with the same number, which is the same exchange for the first 2^28; exactly an initial part of the messages is answered, and the first one that is not lost 8 datagrams, 3 if it is the very first, or met a failed call |
| `RudpProperties.BackoffIsExponential` | tspc-advanced/src/net/net_rudp.c:232-240 | n backoffs double the timeout n times up to 30 seconds |
| `RudpProperties.SteadySamples` | tspc-advanced/src/net/net_rudp.c:394-411 | on a steady round-trip time the smoothed estimate closes in by 7/8 per sample while the variance term, which is never decayed, climbs by exactly twice the error made good |
| `RudpProperties.SamplesBound` | tspc-advanced/src/net/net_rudp.c:394-411 | the smoothed estimate stays among the samples and the variance term never shrinks |
| `Keepalive.NetKeepAlive.constructor` | tspc-advanced/src/net/net_ka.c:225-285 | the initial flags, counters and fuzz, an interval of five seconds and the time of the first event |
| `Keepalive.NetKeepAlive.GotRead` | tspc-advanced/src/net/net_ka.c:328-333 | notes a read |
| `Keepalive.NetKeepAlive.GotWrite` | tspc-advanced/src/net/net_ka.c:336-341 | notes a write |
| `Keepalive.NetKeepAlive.NoteTraffic` | tspc-advanced/src/net/net_ka.c:367-379 | raised flags are taken in and lowered |
| `Keepalive.NetKeepAlive.JudgeLink` | tspc-advanced/src/net/net_ka.c:400-433 | the chain of conditions means: up exactly with a recent write, more than two reads and no pending timeout; otherwise one timeout more |
| `Keepalive.NetKeepAlive.AdjustNextEvent` | tspc-advanced/src/net/net_ka.c:496-567 | the interval moves as `Adjust` says; the next event is that many whole seconds later and its microseconds are always zero |
| `Keepalive.NetKeepAlive.Do` | tspc-advanced/src/net/net_ka.c:357-461 | one call is one step of the link machine, due by the clock test of the code; interval, next event and fuzz change only when due, the fuzz to the values of the new draws |
| `Keepalive.MajorFuzz` | tspc-advanced/src/net/net_ka.c:466-477 | the major fuzz is 0.40 plus the hundredths drawn |
| `Keepalive.MinorFuzz` | tspc-advanced/src/net/net_ka.c:481-492 | the minor fuzz is 0.03 plus the hundredths drawn |
| `KeepaliveProperties.DueIsInTimeIff` | tspc-advanced/src/net/net_ka.c:391-397 | the clock test against the order of times in seconds and microseconds: by any clock past 1,000,000 seconds never late, and early, by less than a second, if and only if the clock is in the event's own second before its microseconds; only the first event has any |
| `KeepaliveProperties.StepKeepsAgreement` | tspc-advanced/src/net/net_ka.c:357-461 | the flags and counters agree with an observer who notes only the events: reads, writes, due events |
| `KeepaliveProperties.RunsAgree` | tspc-advanced/src/net/net_ka.c:357-461 | they do in every run |
| `KeepaliveProperties.FatalExactlyAtDeadline` | tspc-advanced/src/net/net_ka.c:357-461 | in every run still alive the counter is below five and the next event is fatal if and only if it is the fifth due event since the last call that saw a read, the sixth if the first found the link up; without any read it is the fifth |
| `KeepaliveProperties.FirstUpMeansTraffic` | tspc-advanced/src/net/net_ka.c:400-413 | in every run a due event finds the link up if and only if since the previous due event there was a write or a ping and at least three calls saw a read |
| `KeepaliveProperties.StepInZone` | tspc-advanced/src/net/net_ka.c:516-537 | in the upper quarter the interval moves by the minor fuzz, down from the top, up from the bottom, either way in between, and not beyond |
| `KeepaliveProperties.StepBelowZone` | tspc-advanced/src/net/net_ka.c:539-554 | below it the interval grows by the major fuzz unless two timeouts are pending, within five seconds and the maximum |
| `KeepaliveProperties.ZoneIsKept` | tspc-advanced/src/net/net_ka.c:496-567 | once in the upper quarter the interval stays there for every fuzz |
| `KeepaliveProperties.SmallMaximum` | tspc-advanced/src/net/net_ka.c:496-567 | for a maximum of at most six the first adjustment leads there |
| `KeepaliveProperties.GrowsTowardsZone` | tspc-advanced/src/net/net_ka.c:496-567 | below it the interval never decreases and grows by at least 1.4 unless two timeouts are pending |
| `KeepaliveProperties.IntervalConverges` | tspc-advanced/src/net/net_ka.c:496-567 | after any adjustments, k of them calm, the interval is in the zone or at least the start times 1.4^k |
| `Buffer.Buffer.constructor` | tspc-advanced/src/lib/buffer.c:40-49 | 4096 bytes, empty |
| `Buffer.Buffer.MakeRoom` | tspc-advanced/src/lib/buffer.c:107-136 | the restart loop: contents kept, room found exactly when `Settled` says, after at most one compaction and one growth |
| `Buffer.Buffer.AppendSpace` | tspc-advanced/src/lib/buffer.c:93-137 | room is found if and only if it exists at the end, after a compaction, or in a permitted growth; the contents survive either |
| `Buffer.AppendShape` | tspc-advanced/src/lib/buffer.c:93-137 | an append adds its length to the contents, never shrinks the allocation or exceeds the maximum, and fails only for too long data or an allocation that would |
| `Buffer.RoomIff` | tspc-advanced/src/lib/buffer.c:93-137 | when an append succeeds: at most a megabyte, with room at the end, at the front of an empty buffer, after a move to the front when more than half is free there, or in a larger allocation of at most 10 MB |
| `Buffer.Buffer.Append` | tspc-advanced/src/lib/buffer.c:79-84 | contents grow by exactly the data, or the program exits |
| `Buffer.Buffer.Get` | tspc-advanced/src/lib/buffer.c:150-160 | takes the oldest bytes, all or nothing |
| `Buffer.Buffer.Consume` | tspc-advanced/src/lib/buffer.c:165-174 | drops from the front, all or nothing |
| `Buffer.Buffer.ConsumeEnd` | tspc-advanced/src/lib/buffer.c:179-189 | drops from the end, all or nothing |
| `Buffer.Buffer.PutInt` | tspc-advanced/src/lib/bufaux.c:152-158 | appends the four octets, high octet first |
| `Buffer.Buffer.PutOctet` | tspc-advanced/src/lib/bufaux.c:243-248 | appends the low octet of any int |
| `Buffer.Buffer.PutString` | tspc-advanced/src/lib/bufaux.c:212-216 | appends length and bytes, if and only if both appends find room |
| `Buffer.Buffer.GetInt` | tspc-advanced/src/lib/bufaux.c:143-149 | takes what `Parse` finds, or nothing |
| `Buffer.Buffer.GetOctet` | tspc-advanced/src/lib/bufaux.c:232-238 | takes one octet, or nothing |
| `Buffer.Buffer.GetString` | tspc-advanced/src/lib/bufaux.c:184-206 | takes a length-prefixed string of at most 256 KiB |
| `Buffer.ParseEncode` | tspc-advanced/src/lib/bufaux.c:143-248 | a typed get returns what the matching put stored and leaves what follows, if and only if it is not a string of more than 256 KiB |
| `Buffer.ParseAllEncodeAll` | tspc-advanced/src/lib/bufaux.c:143-248 | any list of values comes back from the matching list of gets, in order |
| `Buffer.BigEndian32RoundTrip` | tspc-advanced/include/getput.h:42-64 | reading back the four octets of a word gives the word |
| `Buffer.StoredForm` | tspc-advanced/src/lib/bufaux.c:143-248 | numbers are stored most significant octet first, strings with their length in front |
| `Dns.WriteLabels` | tspc-advanced/src/lib/dns.c:96-112 | length octet and text of every non-empty label, empty ones dropped |
| `Dns.NameEncode` | tspc-advanced/src/lib/dns.c:80-122 | labels followed by the root or by a pointer; refused exactly above 253 characters |
| `Dns.MessageCreate` | tspc-advanced/src/lib/dns.c:138-234 | accepted exactly when both names and a dot have at most 253 characters, the name at most 63 and the address text is none or an address; the buffer holds the length prefix and the message, never more than 301 of its 512 octets; a refusal writes nothing |
| `Dns.MessageLength` | tspc-advanced/src/lib/dns.c:138-234 | the bound on the message from the lengths of the names |
| `Dns.LabelsShort` | tspc-advanced/src/lib/dns.c:96-112 | labels are never empty nor longer than the name |
| `Dns.LabelsOfJoined` | tspc-advanced/src/lib/dns.c:96-112 | the labels of a dotted name are the texts between its dots, empty ones left out |
| `DnsProperties.DecodeEncoded` | tspc-advanced/src/lib/dns.c:96-112 | an independent decoder (section 4.1.4 of RFC 1035) recovers encoded labels wherever they lie |
| `DnsProperties.ZoneNameDecodes` | tspc-advanced/src/lib/dns.c:193-200 | the zone is the domain's labels |
| `DnsProperties.RecordNameDecodes` | tspc-advanced/src/lib/dns.c:202-210 | the record's name is the name's labels and, through the pointer to offset 12, the domain's |
| `DnsProperties.DecodedLabelsAreShort` | tspc-advanced/src/lib/dns.c:96-112 | no decoder result has a label beyond 63 octets |
| `DnsProperties.NamesAreLegal` | tspc-advanced/src/lib/dns.c:156-159 | the bound of 253 characters keeps every name within the 255 octets of section 3.1 of RFC 1035, which the decoder enforces |
| `DnsProperties.ShortLabelsDecode` | tspc-advanced/src/lib/dns.c:138-234 | the whole message decodes to the add form (section 2.5.1 of RFC 2136) or delete-all form (2.5.3) it stands for |
| `DnsProperties.UpdateDecodesExactly` | tspc-advanced/src/lib/dns.c:138-234 | it does so if and only if no label of the domain exceeds 63 octets, which the code does not check |
| `NameValue.NameValueParser.AddNameValue` | gw6c-config/src/namevalueparser.cc:346-368 | trims both; a blank name adds nothing |
| `NameValue.NameValueParser.TakeLine` | gw6c-config/src/namevalueparser.cc:161-189 | one line: empty, comment, pair, or refusal |
| `NameValue.NameValueParser.ReadConfigurationData` | gw6c-config/src/namevalueparser.cc:127-196 | throws if and only if some line, after its leading spaces, is nothing but "="; otherwise the map and the file image are those of the file's lines, the empty piece after the last newline included; the line buffer, whose pointer only moves forward, is never overrun |
| `NameValue.AddLinesFails` | gw6c-config/src/namevalueparser.cc:176-189 | the parser fails on exactly the lists of lines that hold a line of nothing but "=" |
| `NameValueProperties.LineWithoutSeparatorIsStored` | gw6c-config/src/namevalueparser.cc:176-189 | a line without "=" is not refused: it becomes a variable with an empty value |
| `NameValue.NameValueParser.WriteConfigurationData` | gw6c-config/src/namevalueparser.cc:218-283 | writes the image line by line, names no longer in the map skipped, the generated-date comment renewed |
| `NameValue.NameValueParser.GetVariableValue` | gw6c-config/src/namevalueconfig.cc:95-107 | the value in the map, or the empty string |
| `NameValue.NameValueParser.SetVariableValue` | gw6c-config/src/namevalueconfig.cc:130-147 | sets this value and no other; adds an entry at the end only if no entry of any kind has that text |
| `NameValue.NameValueParser.RemoveVariable` | gw6c-config/src/namevalueconfig.cc:167-174 | removes this value and no other, and every name entry of that name; the other entries stay in their order |
| `NameValue.WithoutAppend` | gw6c-config/src/namevalueconfig.cc:167-174 | what removing keeps of a list, part by part |
| `NameValueProperties.PairParses` | gw6c-config/src/namevalueparser.cc:176-184 | a written pair parses to that pair, trimmed, values with "=" included |
| `NameValueLayout.TrimCuts` | gw6c-config/src/namevalueparser.cc:50-61 | every text is its trimmed form between two runs of spaces and tabs |
| `NameValueLayout.TrimIs` | gw6c-config/src/namevalueparser.cc:50-61 | a text without blanks at its ends is what is left when any blanks around it are trimmed |
| `NameValueLayout.AssignmentParses` | gw6c-config/src/namevalueparser.cc:152-184 | a line with any blanks before the name, around the "=" and behind the value is read as that name and that value |
| `NameValueLayout.LineParses` | gw6c-config/src/namevalueparser.cc:152-189 | so are comments and blank lines behind spaces |
| `NameValueLayout.LastAssignmentCounts` | gw6c-config/src/namevalueparser.cc:360-367 | a variable ends up with the value of the last assignment to it |
| `NameValueLayout.LoadOfLayout` | gw6c-config/src/namevalueparser.cc:127-196 | loading a file of such lines that fit the line buffer makes exactly its assignments in order and keeps every line of it; that is what a load means in a run |
| `NameValueLayout.FitsIff` | gw6c-config/src/namevalueparser.cc:152-159 | lines fit the reader's buffer if and only if each has fewer than 2048 characters together with the spaces skipped before all lines in front of it |
| `NameValueLayout.RedatedAt` | gw6c-config/src/namevalueparser.cc:258-262 | saving renews the date of the generated comment and leaves every other entry in its place |
| `NameValueProperties.SplitJoin` | gw6c-config/src/namevalueparser.cc:152-166 | splitting joined lines gives the lines and one empty piece more |
| `NameValueProperties.LinesReadBack` | gw6c-config/src/namevalueparser.cc:127-283 | reading written lines rebuilds map and image entry by entry |
| `NameValueProperties.TextReadsBack` | gw6c-config/src/namevalueparser.cc:161-189 | for every well-formed configuration: parsing what was written gives the same map, and the same image with a new date and one trailing empty line |
| `NameValueProperties.SaveThenLoad` | gw6c-config/src/namevalueparser.cc:127-283 | for every well-formed configuration: loading what was saved gives just that if and only if every written line is shorter than the reader's line buffer, and nothing otherwise |
| `NameValueProperties.SavedFileFitsIff` | gw6c-config/src/namevalueparser.cc:152-159 | what is saved fits the reader's line buffer if and only if every entry makes a line of fewer than 2048 characters |
| `NameValueProperties.FileLoads` | gw6c-config/src/namevalueparser.cc:127-196 | whatever file is read, its names are not empty, trimmed and without "=" or newline, its values clean, and the image agrees with the map |
| `NameValueProperties.GoodLineIff` | gw6c-config/src/namevalueparser.cc:157-189 | the lines that the parser takes without trouble, told by their characters: not only "=", and no "#" hidden behind leading separators or blanks |
| `NameValueProperties.LoadIsWellFormedIff` | gw6c-config/src/namevalueparser.cc:127-196 | reading any file succeeds with a well-formed configuration if and only if its lines fit the line buffer and all are such lines |
| `NameValueProperties.StepIsMap` | gw6c-config/src/namevalueconfig.cc:95-174 | a set, removal, load of a file or save-and-load leaves a well-formed configuration if and only if name and value are good, the lines to be saved are short, or the file is good; it then acts on the variables as on a plain map |
| `NameValueProperties.RunsActOnMap` | gw6c-config/src/namevalueconfig.cc:95-174 | so does every run of them, each good when its turn comes: no variable lost, none gained, every file can be loaded, a load takes for every name the value of its last line |
| `NameValueProperties.ShortRunsAreGood` | gw6c-config/src/namevalueconfig.cc:95-174 | runs whose names, values, dates and files are short by a bound that can be checked beforehand are such runs |
| `NameValueProperties.SetSurvivesIff` | gw6c-config/src/namevalueconfig.cc:130-147 | for every well-formed configuration, name and value: what is set is read back after save and load if and only if the name is not empty, trimmed, without "=", newline or a leading "#", the value is trimmed and without newline, and all written lines are short; the code checks none of this |
| `NameValueProperties.SetLineDecides` | gw6c-config/src/namevalueconfig.cc:130-147 | when the other lines are short, that last condition is that name, "=" and value have fewer than 2048 characters |
| `NameValueProperties.EmptyNameSpoilsFile` | gw6c-config/src/namevalueconfig.cc:130-147 | an empty name with an empty value even makes the saved file unreadable |
| `NameValueProperties.CommentNameIsLost` | gw6c-config/src/namevalueconfig.cc:130-147 | with a name that starts with "#" the other variables come back unharmed, unless a line is too long to be loaded at all |
| `EndToEnd.CreatedMessageArrives` | gw6c-messaging/src/message.cc:43-64 | a created message goes through a write and a read unharmed, whatever else is in the receive buffer; none is created when its raw form would fill a write or exceed it |
| `Messages.RawRoundTrip` | gw6c-messaging/src/message.cc:43-64 | header and data at the front of a receive buffer give the message back |
| `Messages.SendStatusInfo` | gw6c-messaging/src/servermsgsender.cc:76-105 | message 0x0101 with status and code |
| `Messages.SendTunnelInfo` | gw6c-messaging/src/servermsgsender.cc:120-218 | message 0x0102 with the tunnel layout, null strings as empty ones |
| `Messages.TunnelLaidOut` | gw6c-messaging/src/servermsgsender.cc:120-218 | the order of the fields in the layout |
| `Messages.SendHap6StatusInfo` | gw6c-messaging/src/servermsgsender.cc:292-349 | message 0x0104 with the status layout for a list of any length |
| `Messages.SendBrokerList` | gw6c-messaging/src/servermsgsender.cc:234-275 | message 0x0103 with the broker layout |
| `Messages.TranslateStatusInfo` | gw6c-messaging/src/clientmsgtranslator.cc:145-178 | gives back what was sent, cursor exactly at its end |
| `Messages.TranslateTunnelInfo` | gw6c-messaging/src/clientmsgtranslator.cc:197-270 | field by field: every text is the text of the same field that was sent, empty for a null one, type and uptime are equal, so a record without null strings comes back equal; cursor exactly at its end |
| `Messages.BuildMappingStatuses` | gw6c-messaging/src/clientmsgtranslator.cc:368-388 | gives back the list from any position to the end of the data |
| `Messages.MappingsArrive` | gw6c-messaging/src/clientmsgtranslator.cc:368-388 | entry k of the list arrives as entry k |
| `Messages.TranslateHap6StatusInfo` | gw6c-messaging/src/clientmsgtranslator.cc:401-447 | field by field: the three statuses, and mapping k as mapping k; a record without null names comes back equal; cursor exactly at the data length |
| `Messages.BuildBrokerList` | gw6c-messaging/src/clientmsgtranslator.cc:289-304 | what the builder makes of an entry at any offset, its doubled cursor included; the consumed length is right |
| `Messages.TranslateBrokerList` | gw6c-messaging/src/clientmsgtranslator.cc:308-349 | the same for the whole message |
| `Messages.AddressesArrive` | gw6c-messaging/src/clientmsgtranslator.cc:289-304 | every broker's address arrives, in order |
| `Messages.HeadDistanceArrives` | gw6c-messaging/src/clientmsgtranslator.cc:289-304 | the first broker's distance arrives |
| `Messages.DistanceIsLookedForAt` | gw6c-messaging/src/clientmsgtranslator.cc:289-304 | distance k is looked for as far behind its address as its entry lies from the start of the data |
| `Messages.LastDistanceIsStale` | gw6c-messaging/src/clientmsgtranslator.cc:299-301 | past the first entry the last distance is read behind the end of the message, from whatever the buffer holds there |
| `Messages.BrokerListRoundTripsIff` | gw6c-messaging/src/clientmsgtranslator.cc:289-304 | for a receive buffer of any size: the list arrives as it was sent whatever lies behind the message if and only if it has exactly one broker |
| `EndToEnd.RawsAreDeliverable` | gw6c-messaging/src/message.cc:43-64 | the bound on a message's data keeps its raw form within what a write accepts |
| `EndToEnd.MessagesArrive` | gw6c-messaging/src/servent.cc:384-624 | under every interleaving the k-th message read is the k-th sent and all arrive once the channel has drained |
| `EndToEnd.SendRecord` | gw6c-messaging/src/servermsgsender.cc:76-349 | a record of any of the four kinds becomes its message |
| `EndToEnd.ReceivedArrives` | gw6c-messaging/src/clientmsgtranslator.cc:145-447 | what a handler is given, field by field, is what was sent: statuses equal, texts equal or empty for null, mapping k as mapping k, every broker's address and the first distance |
| `EndToEnd.ProcessMessage` | gw6c-messaging/src/clientmsgtranslator.cc:86-126 | the dispatch on the identifier: the handler of the record's kind gets every field as it was sent, an unknown message is reported, everything is refused while disabled |
| `EndToEnd.RecordsArrive` | gw6c-messaging/src/clientmsgtranslator.cc:86-126 | records of any kinds and number, laid out, fragmented, interleaved, reassembled and translated, arrive in order with every field as it was sent, and all of them once the channel has drained; only the distances of brokers past the first may depend on stale octets |
| `Base64.EncodeSize` | tspc-advanced/src/lib/base64.c:172-175 | `base64encode_len` is the exact size, terminator included |
| `Base64.EncodeBinary` | tspc-advanced/src/lib/base64.c:185-216 | writes the RFC 4648 encoding and a terminator within the announced size, and returns that size |
| `Base64.DecodeBinary` | tspc-advanced/src/lib/base64.c:124-167 | decodes the leading digits, with the exact count for every remainder, within the announced size |
| `Base64.DecodeSize` | tspc-advanced/src/lib/base64.c:97-110 | the octet count of a run of digits, for every remainder modulo 4 |
| `Base64.QuadOfOctets` | tspc-advanced/src/lib/base64.c:192-198 | shifts and masks pick the base-64 digits of the group's 24-bit number |
| `Base64.OctetsOfDigits` | tspc-advanced/src/lib/base64.c:140-149 | shifts and masks pick its octets |
| `Base64.EncodingStands` | tspc-advanced/src/lib/base64.c:185-216 | in every encoding the digits stop at padding or terminator and stand for the byte string |
| `Base64.RoundTrip` | tspc-advanced/src/lib/base64.c:97-216 | decode after encode is the identity for every byte string |
| `Base64.DecodeLenIs` | tspc-advanced/src/lib/base64.c:97-110 | `base64decode_len` is three octets for each group of four digits that was begun, and one more |
| `Base64.AlphabetIs` | tspc-advanced/src/lib/base64.c:76-170 | the two tables are the alphabet of table 1 of RFC 4648, and nothing else is a digit |
| `Base64.GroupIs` | tspc-advanced/src/lib/base64.c:185-216 | the digits and the padding of a group of one, two or three octets |
| `Base64.Vectors` | tspc-advanced/src/lib/base64.c:185-216 | the test vectors of section 10 of RFC 4648 |
| `Checksum.InCksum` | tspc-advanced/src/net/net_cksm.c:18-37 | for all data whose sum fits the int accumulator: the complement of the one's complement sum of section 1 of RFC 1071 |
| `Checksum.ShortDataFit` | tspc-advanced/src/net/net_cksm.c:25-32 | the sum of at most 65537 octets always fits |
| `Checksum.SumBound` | tspc-advanced/src/net/net_cksm.c:25-32 | the accumulator's bound |
| `Checksum.OnesFillSum` | tspc-advanced/src/net/net_cksm.c:25-32 | why the length is bounded: 65538 octets of ones overflow |
| `Checksum.OnesSumIsResidue` | tspc-advanced/src/net/net_cksm.c:33-35 | end-around carries are arithmetic modulo 65535 without its zero |
| `Checksum.TwoFolds` | tspc-advanced/src/net/net_cksm.c:33-34 | two folds are always enough |
| `Checksum.OrderOfWordsIsFree` | tspc-advanced/src/net/net_cksm.c:25-28 | permuting the 16-bit words does not change the checksum |
| `Checksum.StoredChecksumVerifies` | tspc-advanced/src/net/net_cksm.c:18-37 | storing the checksum in a zeroed aligned word makes the checksum of the whole zero, and no other word does, up to the two representations of zero |
| `Checksum.Example` | tspc-advanced/src/net/net_cksm.c:18-37 | the example of section 3 of RFC 1071, and an odd octet at the end |

## Left out

Statements that are weaker than one might expect:

- CommunicationsThreads.CommunicationsManager.SenderWork: threads run for a given number of rounds, not for ever; what happens in between is any sequence of steps of the other threads. The same holds of `Work`. What the other process does, answering, writing and taking messages, is recorded in `Peer`.
- CommunicationsThreads.CommunicationsManager.CleanupInstance: posts under way release the semaphore before it is replaced; runs in which one does not are covered by `CommunicationsMgr`, whose lemmas say what they break.
- CommunicationsMgr.RunKeepsInvariant: the steps of the machine are the pieces of the loops between two accesses to shared fields, and the reset is one step; the queue has no mutex of its own, and races inside a single push or pop are not modelled, nor are stopping the manager and timeouts of waits.
- Servent.Servent.ReadData: packets are records with field ranges; the bit layout of the header word depends on the compiler. The message number is static in the code and a field here.
- Servent.Pipe.Write: a packet that is only partly written leaves nothing in the pipe.
- Sorting.QuickSort: a call whose range has one strictly largest element needs a cell after it that this element does not exceed, because for some orders of the elements the code reads that cell and runs past it; the outermost call provides none, and `Deque.Queue.Sort` takes its value as the parameter `beyond`.
- Deque.Queue.Find: what the comparison function makes of a null pointer is a parameter.
- Deque.Queue.Seek: the queue must be the one sorted last (`Indexed`) if it is flagged as sorted; `Deque.Queue.SeekIndex` says what happens otherwise, up to an index that is smaller than the queue, which is read beyond its end.
- Md5Stream.Context.Update: updates that are not safe (`UpdateFits`) run past their input (`Md5Stream.LoopTestIff`).
- Rudp.RttEngine.SendRecv: floating point numbers are reals; the clock and `select` are choices of the environment that make a datagram readable only finitely often within an exchange; datagrams come from a server that echoes number and timestamp and are not shorter than the header; a clock that fails is not modelled. A wait is recorded with the timeout as its limit: the conversion to `struct timeval`, which loses most of the fraction, and the rest of the limit after a skipped datagram are not modelled.
- Keepalive.NetKeepAlive.Do: the two readings of the clock, the results of pings and the random draws are inputs; floating point numbers are reals.
- Buffer.Buffer.AppendSpace: `exit` is the result `ok == false`.
- NameValue.NameValueParser.ReadConfigurationData: every line has to fit the line buffer after all the spaces skipped before it (`Fits`); a longer line overruns the buffer or puts the stream in a failed state in which the loop never ends. `ReadFile` counts that as no result, like an exception.
- NameValue.NameValueParser.WriteConfigurationData: the date stamp is a parameter; opening files, and the reading mode that keeps no file image, are not modelled.
- Messages.SendTunnelInfo: the layout must fit the array it is built in, as the code asserts; the message header is little-endian as on the supported hosts; linked lists are sequences; enumerations, ints and times are copied as the octets they are.
- Messages.TranslateTunnelInfo: states the result for data that a sender laid out; the code has no other checks than the final assertion.
- Messages.BuildBrokerList: distances past the first are whatever the memory holds at the doubled offset, and absent beyond it.
- Dns.MessageCreate: the conversion of the address text is an input, whose result may be that it is no address; null arguments are not modelled.
- Base64.DecodeBinary: the two tables are piecewise functions; the input must contain a character that is no digit, as C strings do.
- Checksum.InCksum: a little-endian host and data whose sum fits the accumulator, as all data of at most 65537 octets do; 65538 octets of ones do not (`Checksum.OnesFillSum`).

Parts of the repository without a counterpart here:

- Sockets, pipes, the thread wrapper, raw ICMP, `fork`, template scripts: foreign calls.
- `Q_DelCur` and `Q_Put`: the first does not relink the neighbours and the second leaves the index stale.
- The big-number functions of `bufaux.c`, allocation failure and the freeing of memory.
- `FAST_HANDOVER`, which the builds do not define.
- Sending a DNS update and reading its answer; authentication dialogues and capability strings.
- Typed accessors of the configuration, the C wrappers, logging, the command line and the user interface: copies with no deep property.
- `IsAddressInPrefix`, which shifts by the wrong amount for partial octets.
