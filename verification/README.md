# Verification of the ESP8266 socket stack

A small socket stack drives an ESP8266 over a serial line. Bytes come in on a
reader thread, which cuts them into response lines and length-prefixed frames;
frames go through a link table into the sockets' buffers; the application reads
them through descriptors that a little file system of reference-counted nodes
hands out. This project models the five layers the stack rests on and proves what
each promises, and then what they promise together.

| file | what it models |
|---|---|
| `List2.dfy` | the doubly linked list whose head carries data, on the heap, and its removal-safe loop |
| `Ringbuf.dfy`, `RingSteps.dfy`, `RingCalls.dfy` | the ring buffer as a class that refines a bounded queue, and as two threads that interleave at every load and store |
| `FsNode.dfy`, `FsTree.dfy`, `FsShape.dfy`, `Fs.dfy` | nodes and their linked lists of children on the heap, the forest they form, the recursive destruction, descriptors and their counts |
| `FsSession.dfy` | any series of calls on the file system |
| `Numerals.dfy`, `Inet.dfy` | `itoa`, `atoi`, dotted-decimal addresses, address matching |
| `Framing.dfy` | the reader thread in its line buffer, and the rendering it undoes |
| `Handshake.dfy` | the mutex and condition variable between a command's caller and the reader thread |
| `NetSpec.dfy`, `NetLinks.dfy`, `NetRuns.dfy` | sockets and link tables as a state machine of calls and events, its invariant, and what holds over whole runs |
| `NetObjects.dfy`, `NetStack.dfy`, `NetCalls.dfy`, `NetSession.dfy` | the same calls and callbacks on objects that point at each other, each proved to move the state by the steps of the machine, and whole sessions of them |
| `NetResults.dfy`, `NetSenders.dfy` | when each call goes on, what it returns and leaves; who sent the bytes that are read |
| `NetLaws.dfy`, `NetNames.dfy` | what whole calls achieve, whatever events come while they wait; when node names repeat |
| `NetLoss.dfy`, `NetTakes.dfy` | which bytes the application can still get; which calls take the link of another socket |
| `EndToEnd.dfy`, `Replies.dfy` | from the bytes on the wire to the bytes the application reads, and to the answers its commands get |
| `Seqs.dfy`, `Options.dfy` | sequence operations and the option type used by all of them |

## How the layers fit together

A call of the socket layer that sends a command is cut where it waits for the
reply. While it waits, the reader thread may deliver any events: frames, new
connections, closed links. `NetSpec.Step` gives each cut-off piece; `NetSpec.Finish`
puts a whole call together for a given series of replies and of events in between,
and `NetCalls.CallIsRun` says that this is a run of the machine, so that all of
`NetRuns` applies to it. The methods of `NetCalls` do the work on objects and are
proved equal to that, with sockets, rings, link arrays, nodes and descriptors on
the heap; `NetSession.FromStart` chains any number of them from the first set-up on
and ends with a run of the machine. Where the answers come from is the subject of
`Replies`: the lines that the framing dispatches go to the handshake, and the result
of the wait is the answer the machine goes on with.

## Where the code does less than one may expect

- `inet_ntoa` with the length 15 that `send_cmd` passes cuts addresses whose text
  has 15 characters; the round trip holds exactly for the others
  (`Inet.RoundTripInFifteen`, `Inet.FifteenIsShort`).
- A response line that starts with "+IPD" and contains a colon is taken for a frame
  at that colon. A line comes through as itself exactly when it is `Plain` and shorter
  than 63 characters; a longer one is cut (`Framing.TextRoundTrip`,
  `Framing.FrameCutsIn`, `Framing.LineDispatch`).
- `contains` holds of the null element on every list (`List2.List.Contains`).
- `bos_close` destroys the node while its descriptor still counts, so destruction
  fails and both survive (`NetStack.Stack.DestroyNode`, `NetCalls.BosClose`,
  `NetRuns.DescriptorsStay`).
- In `bos_accept` the parameter `fd_id` hides the counter of that name, so the node
  of an accepted connection is named after the caller's descriptor. Two accepts on one
  listener give the same name twice (`NetNames.TwoAcceptsOneName`); an accept on `fd`
  repeats a name exactly when `bos_socket` was called at least `fd + 1` times or an
  accept on `fd` succeeded before (`NetNames.AcceptRepeats`), and `bos_socket`, called
  for the n-th time, exactly when an accept on descriptor n - 1 succeeded before
  (`NetNames.SocketRepeats`). Descriptor ids never repeat.
- Bytes are lost in two ways. A full stream buffer drops the end of a frame
  (`NetRuns.LossIsExcess`, `NetLaws.LongFrameLoses`), and all arrive in the buffers
  exactly when every frame found room (`NetRuns.NoLossWhenFitting`). And a close notice
  takes the socket from its node, so that what was unread then can never be read
  (`NetLoss.ClosedLoses`, `NetLoss.ClosedEarlyLoses`), nor can what the clients hold that
  wait at it. Over a run from the start the application has got, or can still get, all
  that was sent to a socket exactly when every frame found room and nothing was cut off
  (`NetLoss.NothingLost`, `NetLoss.LostAtTheCut`).
- Accepting a connection on an occupied link overwrites the link: the socket that was
  there keeps its node and is at no link any more (`EndToEnd.ConnectionOverwrites`,
  from the start `NetTakes.OverwritingRun`).
  The steps in which a socket loses its link are exactly those of
  `EndToEnd.Disturbs` (`EndToEnd.LinkStays`): among them the good answer to a close or
  a connect whose link was given to another socket in the meantime. Such a call returns 0
  and takes the other socket's link exactly when, while it waited, a connection came for
  the link and no close notice after it (`NetTakes.CloseTakes`, `NetTakes.ConnectTakes`,
  from the start `NetTakes.ClosingRun`, `NetTakes.ConnectingRun`).
- The driver announces the size of the data but writes it up to a terminator
  (`NetCalls.BosSendTo`); the two agree exactly when the terminator stands right behind
  the data (`Framing.SentAsAnnounced`).

## Model

| member | source | states |
|---|---|---|
| List2.List.Init | include/sys/list2.h:36-39 | a list of one element: its own predecessor, no successor |
| List2.List.AddHead | include/sys/list2.h:51-62 | prepends to the element sequence, keeps the list linked, and touches only the new element and the old head |
| List2.List.AddTail | include/sys/list2.h:74-89 | appends, touching only the new element, the old tail and the head |
| List2.List.AddIn | include/sys/list2.h:102-112 | inserts between adjacent neighbours, touching only these two and the new element |
| List2.List.Replace | include/sys/list2.h:125-144 | updates one position, or makes a one-element list of the empty one; touches only the neighbours and the head |
| List2.List.Rm | include/sys/list2.h:156-163 | removes one element, at either end or between, touching only its neighbours and the head |
| List2.List.Contains | include/sys/list2.h:176-185 | true for exactly the elements of the sequence, and for null |
| List2.List.Find | sys/list2.c:43-53 | returns the first element whose member has the value, and null exactly when there is none |
| List2.List.Visit | include/sys/list.h:139-144 | a loop body that may unlink and free its element leaves a linked list of the others, whose next element is still linked |
| List2.List.Sweep | include/sys/list.h:139-144 | a loop that frees elements as it goes visits every element of the original list once and in order, and leaves exactly those it kept |
| Fifo.Conservation | sys/ringbuf.c:23-45 | over any run of reads and writes on a bounded queue: what was there and what was accepted equals what was delivered and what is left |
| Ringbuf.LeftIsFree | sys/ringbuf.c:51-53 | the wrapping unsigned subtraction yields (rd - wr) mod size, and unread bytes and free slots always add up to size - 1 |
| Ringbuf.EmptyAndFull | sys/ringbuf.c:55-61 | the two index comparisons mean no unread byte, and size - 1 of them |
| Ringbuf.Ring.constructor | sys/ringbuf.c:16-21 | a new ring of any size from 1 on is empty |
| Ringbuf.Ring.Read | sys/ringbuf.c:23-33 | removes the longest available prefix, copies it, and leaves the rest of the destination alone |
| Ringbuf.Ring.Write | sys/ringbuf.c:35-45 | appends the longest prefix that fits into size - 1 bytes |
| Ringbuf.Ring.LeftOver | sys/ringbuf.c:51-53 | the number of bytes that still fit |
| Ringbuf.Ring.Contains | sys/ringbuf.c:47-49 | the number of unread bytes |
| Ringbuf.Ring.Empty | sys/ringbuf.c:55-57 | 1 exactly when nothing is unread |
| Ringbuf.Ring.Full | sys/ringbuf.c:59-61 | 1 exactly when size - 1 bytes are unread |
| Ringbuf.Ring.RoundTrip | sys/ringbuf.c:23-45 | bytes written to an empty ring that fit are read back unchanged, across the end of the array |
| RingSteps.ReaderKeepsInv | sys/ringbuf.c:23-33 | every load and store of the reader keeps the invariant of the shared ring |
| RingSteps.WriterKeepsInv | sys/ringbuf.c:35-45 | every load and store of the writer keeps it, above all the store of a byte |
| RingSteps.RunKeepsInv | sys/ringbuf.c:23-45 | so does every interleaving of any number of calls |
| RingSteps.ReadsArePrefix | sys/ringbuf.c:23-45 | in every interleaving the bytes read are a prefix of the bytes accepted, in order |
| RingSteps.StoresMissUnread | sys/ringbuf.c:27-30 | the writer never stores into an unread slot, nor into the one the reader has published but not copied yet |
| RingSteps.ContentIsUnread | sys/ringbuf.c:23-45 | between copies the shared array holds, in the sense of the sequential ring, exactly what was accepted and not read |
| RingCalls.ReadReturnsAll | sys/ringbuf.c:23-33 | in every interleaving: a read returns at most the bytes asked for, and fewer only if at its last step, a load of `wr`, every accepted byte had been taken |
| RingCalls.WriteAcceptsAll | sys/ringbuf.c:35-45 | in every interleaving: a write accepts its bytes in order, and not all of them only if at its last step, a load of `rd`, size - 1 bytes were unclaimed |
| RingCalls.CallsEnd | sys/ringbuf.c:23-45 | neither thread waits for the other: over any run a call takes at most seven steps of its own for each byte asked for, and one more |
| RingCalls.ReadAlone | sys/ringbuf.c:23-33 | a read with no step of the writer in between returns the first bytes of the content, as many as asked for or as there are, like the sequential class |
| RingCalls.WriteAlone | sys/ringbuf.c:35-45 | a write with no step of the reader in between accepts the first of its bytes, as many as fit |
| RingCalls.ReadByItself | sys/ringbuf.c:23-33 | and such a read can always be run to its end |
| RingCalls.WriteByItself | sys/ringbuf.c:35-45 | so can such a write |
| FsTree.SucceedsIffUnpinned | bos/fs.c:170-191 | destruction succeeds exactly when no node of the tree has a descriptor, and then leaves nothing |
| FsTree.FailureLeaves | bos/fs.c:170-191 | a failing destruction leaves, in preorder, the path to the first node with a descriptor and everything from that node on |
| FsTree.PathIsAncestors | bos/fs.c:170-191 | that path consists of exactly the ancestors of that node, so what is gone are the completed subtrees left of it |
| FsTree.LeftKeepsShape | bos/fs.c:170-191 | what is left has the same nodes above and below each other as before |
| FsTree.LeftIsPart | bos/fs.c:170-191 | what is left is a forest of old nodes and includes every node with a descriptor |
| FsTree.Destroy | bos/fs.c:170-191 | the recursion on the heap, over linked lists of children that shrink while they are walked, returns and leaves what the tree function says, and every list that is left is well linked |
| FsTree.DestroyChildren | include/sys/list.h:142-144 | the loop reads the next child before the current one is freed, and goes on to exactly the remaining children |
| FsTree.DestroyChild | bos/fs.c:177-180 | one round of it: a destroyed child is gone from the list, a failing one leaves its own remainder |
| FsNode.AddTail | include/sys/list2.h:74-89 | a node is linked in as the last child, and the list stands for the longer sequence |
| FsNode.Unlink | include/sys/list2.h:156-163 | a node is linked out of its parent's list wherever it stands, and the list stands for the sequence without it |
| FsTree.DestroyedRest | bos/fs.c:177-180 | what destroying a forest comes to, in terms of its first tree and the others |
| FsShape.LeafJoins | bos/fs.c:145-147 | a new node at the end of a child list deep in the tree makes a well-formed tree of all nodes |
| FsShape.CutShaped | bos/fs.c:170-191 | the links that destruction leaves form the tree with the destroyed part cut out |
| FsShape.FreedUnpinned | bos/fs.c:174-184 | no freed node has a descriptor; on success the freed nodes are the node and all below it |
| Fs.FileSystem.Register | bos/fs.c:26-59 | file system ids are 0, 1, 2 and so on in list order; missing callbacks are refused and change nothing |
| Fs.FileSystem.FdAlloc | bos/fs.c:61-89 | the new id is larger than all before and was never given out; the node's counter follows; every counter remains the number of descriptors |
| Fs.FileSystem.FdFree | bos/fs.c:91-95 | the descriptor leaves the list and its node's counter drops, never below zero |
| Fs.FileSystem.FdAcquire | bos/fs.c:97-104 | returns exactly the descriptor that was given this id as long as it is not freed, and null otherwise |
| Fs.FileSystem.NodeCreate | bos/fs.c:109-168 | null exactly for names of 32 characters or more and unknown file systems; otherwise the node joins the tree, a directory with its "." and ".." links |
| Fs.FileSystem.NodeDestroy | bos/fs.c:170-191 | 0 exactly when nothing in the subtree has a descriptor; the whole tree is the old one with the destroyed part cut out, freed nodes have no descriptor, and counters, ids and tree remain consistent |
| Fs.FileSystem.LinkChild | bos/fs.c:145-147 | a new node joins the tree and its parent's list, and everything stays consistent |
| Fs.FileSystem.DestroyLists | bos/fs.c:177-184 | lists elsewhere keep their elements and links; the parent's list loses the node on success |
| Fs.FileSystem.DestroyLinks | bos/fs.c:177-184 | only the parent's child list and the remainder below the node change |
| FsSession.InUseIffKept | bos/fs.c:61-104 | over any series of calls an id given out is in use exactly if it was before and no call gave it back; so none comes twice |
| FsSession.NewIds | bos/fs.c:61-168 | a call gives a new id exactly when it names a descriptor in use and, with a node, a name below 32 characters and a registered type; the id is the next one |
| FsSession.Perform | bos/fs.c:61-191 | one call of any kind returns and leaves the ids in use as the table says, and the file system consistent |
| FsSession.Session | bos/fs.c:61-191 | so does any series of calls; at the end every counter is the number of descriptors, and a descriptor that no call gave back is in the list and its node in the tree |
| FsSession.FromStart | bos/fs.c:26-191 | the same from an empty file system with one type and one root directory on |
| Numerals.ValueOfDigits | net/netdev.c:484-515 | a numeral denotes its number, in every base from 2 to 36 |
| Numerals.NoLeadingZero | net/netdev.c:493-501 | numerals of positive numbers have no leading zero |
| Numerals.DigitsInOrder | net/netdev.c:496-497 | digits are 0 to 9 and then a to z |
| Numerals.DigitCount | net/netdev.c:493-505 | a number needs at most n digits exactly when it is below base to the n |
| Numerals.Invert | net/netdev.c:489-501 | the first loop yields the digits backwards, or stops because there are more than the buffer holds |
| Numerals.Itoa | net/netdev.c:484-515 | writes the numeral and a terminator; fails, writing nothing, exactly when there are more than len digits |
| Numerals.ItoaInjective | net/netdev.c:484-515 | two calls write the same text only for the same number |
| Numerals.AtoiOfDigits | esp01/serial.c:210-222 | reading a decimal numeral back yields its number, whatever follows the digits |
| Numerals.AtoiOfSigned | esp01/serial.c:210-222 | the same with a sign or a space in front |
| Inet.InetNtoa | net/inet.c:29-36 | leaves the dotted text in the buffer, cut to one character less than the length, with a terminator, and the rest alone |
| Inet.Strtok | net/inet.c:19-24 | yields the tokens between dots one after the other, skipping empty ones |
| Inet.InetAddr | net/inet.c:8-27 | folds the tokens by shifting and ORing in 32 bits |
| Inet.OrAdds | net/inet.c:22 | ORing into cleared low bits is addition |
| Inet.ParseDotted | net/inet.c:8-27 | four decimal octets joined by dots denote their combined value |
| Inet.RoundTrip | net/inet.c:8-36 | parsing what was printed yields the address whenever text and terminator fit |
| Inet.RoundTripInSixteen | net/inet.c:8-36 | which is for every address when the length is at least 16 |
| Inet.RoundTripInFifteen | esp01/esp01.c:259-262 | with length 15 the address comes back exactly if its text has at most 14 characters |
| Inet.FifteenIsShort | esp01/esp01.c:259-262 | 192.168.123.123, printed as that in 16 bytes, is printed as 192.168.123.12 in 15 and comes back as that |
| Inet.MatchIsSameNetwork | net/inet.c:38-56 | under a netmask of leading ones an address matches exactly if it is the any-address or agrees with the device above the zeros |
| Inet.MatchAgrees | net/inet.c:46-55 | under any netmask at all an address matches exactly if it is the any-address or agrees with the device at every bit of the mask |
| Framing.CutField | esp01/serial.c:209-219 | walking back to a comma and cutting yields the last field and leaves the fields in front of it readable |
| Framing.FieldsOfHeader | esp01/serial.c:209-222 | the four cuts recover link, size, address and port of a rendered header |
| Framing.AnnouncedFrame | esp01/serial.c:200-234 | a rendered header takes exactly the announced bytes of whatever follows, or all when the wire ends before, and the rest is dispatched after it |
| Framing.FrameRoundTrip | esp01/serial.c:153-157 | a rendered frame is dispatched as itself with exactly its payload, whatever bytes that holds and whatever follows |
| Framing.TextRoundTrip | esp01/serial.c:150-162 | a line of any length is dispatched as itself exactly when it is shorter than 63 characters and looks like neither a frame nor a link notice |
| Framing.LineMeans | esp01/serial.c:168-181 | a line that is no frame is dispatched as a connection exactly if it ends in ",CONNECT", as a close notice exactly if it ends in ",CLOSED", and else as a response with its text; of 63 characters or more the first 62 decide |
| Framing.FrameCutsIn | esp01/serial.c:153-157 | a line of any length that starts like a frame and has a colon is dispatched as a frame |
| Framing.CloseRoundTrip | esp01/serial.c:178-181 | a rendered close notice is dispatched with its link |
| Framing.OpenRoundTrip | esp01/serial.c:173-176 | a rendered connection notice is dispatched with its link |
| Framing.ParseConnect | esp01/serial.c:236-247 | the number in front of the first comma, from a copy of five characters |
| Framing.LineDispatch | esp01/serial.c:150-162 | lines of any length are dispatched at their newline, cut to 63 characters |
| Framing.RoundTrip | esp01/serial.c:143-234 | any series of lines, frames, connection and close notices, rendered one after the other, is dispatched as exactly that series |
| Framing.DeviceFramesFit | esp01/serial.c:136-151 | headers of frames with one-digit links and any size that `atoi` can return fit the line buffer |
| Framing.SentAsAnnounced | esp01/serial.c:102-105 | a C string is the first n characters exactly when the terminator stands right behind them |
| Framing.LeftoversDoNotMatter | esp01/serial.c:153 | characters left over from earlier lines cannot complete the frame mark at a colon |
| Framing.ParseHeader | esp01/serial.c:207-222 | the walks and cuts in the buffer compute the header fields of the line |
| Framing.ReadPayload | esp01/serial.c:226-229 | takes exactly the announced bytes off the wire, fewer only at its end |
| Framing.Recv | esp01/serial.c:200-234 | together: the frame's event, and the wire behind its payload |
| Framing.ParseClosed | esp01/serial.c:291-302 | the number in front of the first comma |
| Framing.ParseLine | esp01/serial.c:168-181 | classifies a line as connection, close notice or response |
| Framing.ReadThread | esp01/serial.c:133-166 | in a buffer with arbitrary content that is never cleared, the thread dispatches what the meaning function says of the input alone |
| Handshake.RunKeepsInv | esp01/serial.c:96-122 | every interleaving of caller and reader keeps the invariant of mutex, response and result |
| Handshake.ReturnsLastVerdict | esp01/serial.c:111-122 | some line classified in the window of the wait starts with the wanted text, "OK" by default, or with "ERROR", and the last such line decides: 0 if it starts with the wanted text, -1 if not |
| Handshake.LastDecides | esp01/serial.c:184-195 | the last verdict of any lines is good, or bad, exactly when the last line that starts with either text does or does not start with the wanted one |
| Handshake.QuietWhileSending | esp01/serial.c:96-117 | from the start of a command until the wait releases the mutex no line is classified |
| Handshake.NoWakeupLost | esp01/serial.c:184-197 | for a sleeping caller with the reader outside its critical section no line of the window starts with the wanted text or "ERROR" |
| Handshake.MatchingLineWakes | esp01/serial.c:184-197 | while the caller sleeps, a line is stored and signalled exactly if it starts with the wanted text or "ERROR", and the signal wakes the caller |
| Handshake.MutualExclusion | esp01/serial.c:96-122 | caller and reader are never both in their critical sections |
| Handshake.ResultFromLines | esp01/serial.c:111-122 | the result is decided in the same way by a stretch of consecutive lines of those handed to the reader |
| Replies.HandshakeHears | esp01/serial.c:111-122 | the result the wait returns is decided by the lines on the wire and is the answer the network machine goes on with |
| Replies.HeardMeans | esp01/serial.c:184-195 | the machine hears a good answer exactly if the last line on the wire that starts with the wanted text or "ERROR" starts with the wanted text |
| Replies.ResultOnWire | esp01/serial.c:143-197 | the result is decided by a stretch of the lines that the framing makes of the wire, and by no line before or after |
| Replies.AnswerIsHeard | esp01/serial.c:143-197 | frames, notices and lines that start with neither text, followed by a line that starts with one: good exactly if it starts with the wanted text, and the callbacks are exactly the frames and close notices before it |
| Replies.CommandOverWire | esp01/serial.c:111-166 | the reader thread on the bytes, its callbacks on the objects, and the answer that its lines decide: one command from the wire up |
| NetSpec.FindLink | esp01/esp01.c:344-354 | the first link that holds the socket, or -1 if none does |
| NetSpec.FindDev | net/netdev.c:467-477 | the first device whose domain and network match, or none |
| NetLinks.StepKeepsInv | esp01/esp01.c:135-342 | every call, reply and event keeps: at most one link, one node and one queue place per socket, waiting clients without device or node, buffers within bounds, no reference to what does not exist |
| NetLinks.ConnectTidy | net/netdev.c:167-198 | the guard on `dev` keeps a linked socket from being connected again |
| NetLinks.AcceptedTidy | esp01/esp01.c:310-330 | a new connection keeps all that even when it overwrites an occupied link |
| NetRuns.LinkIsUnique | esp01/esp01.c:344-354 | in every reachable state a socket sits at one link at most, over all devices, and the search finds it |
| NetRuns.NodeIsUnique | net/netdev.c:282-286 | in every reachable state a socket has one node at most, and none while it waits to be accepted |
| NetRuns.ClosedDisconnects | esp01/esp01.c:332-342 | a close event empties the link and takes the socket from its node and changes nothing else; a second one changes nothing |
| NetRuns.DisconnectedForGood | net/netdev.c:313-314 | after that, every send and receive through any descriptor of the node fails, whatever happened in between |
| NetRuns.DescriptorsStay | net/netdev.c:420-426 | no call gives up a descriptor or a node, nor does an id change its meaning |
| NetRuns.TakeSplits | net/netdev.c:366-389 | a read returns the front of what can be read, of a stream as much as asked for or all there is, of datagrams never across one; a datagram goes exactly when it is read to its end |
| NetRuns.ArriveAppends | esp01/esp01.c:287-308 | a frame appends to what can be read: a datagram whole, of a stream frame what fits |
| NetRuns.LossIsExcess | esp01/esp01.c:306-307 | a stream frame loses exactly what exceeds the free space |
| NetRuns.StepConserves | net/netdev.c:348-390 | one step of any kind: readable before and arrived equals returned and readable after |
| NetRuns.Conservation | net/netdev.c:348-390 | over any run and for any socket: returned bytes followed by readable ones are the earlier readable ones followed by all that arrived and fitted, in order |
| NetRuns.ReturnedIsPrefix | net/netdev.c:348-390 | from the start: what the application got is a prefix of what arrived |
| NetRuns.NoLossWhenFitting | esp01/esp01.c:287-308 | as far as arrival in the buffers goes: what arrived is all that was routed to the socket exactly when every stream frame found room; datagrams need none |
| NetLaws.LongFrameLoses | esp01/esp01.c:306-307 | a reachable run in which a stream loses bytes: of a frame of 32 bytes or more the first 31 arrive |
| NetLoss.OutByStep | net/netdev.c:126-136 | a socket gets out of the application's reach exactly when a close notice takes it, or the listener it waits at, from its node, or when it is a connection for a server that has no node; it never comes back |
| NetLoss.OutStays | net/netdev.c:310-364 | over any run nothing is returned from a socket out of reach, and all that is or gets in stays |
| NetLoss.CanGetAll | net/netdev.c:247-390 | a socket within reach: there is a run without frames, with an accept if it waits, that returns all it holds |
| NetLoss.NothingLost | net/netdev.c:348-390 | over any run from the start: the application has got, or can still get, all that was sent to a socket exactly when every frame found room and the socket is within reach or was read to the end |
| NetLoss.LostAtTheCut | net/netdev.c:126-136 | the same by events: exactly when every frame found room and, if the socket was cut off, nothing was unread then and nothing came after |
| NetLoss.ClosedLoses | esp01/esp01.c:332-342 | after a close notice for a socket with a node, over any run: nothing is returned from it, nothing arrives, and all that was readable remains in it |
| NetLoss.ClosedEarlyLoses | net/netdev.c:126-136 | reachable runs for streams and datagrams: a frame of 1 to 31 bytes finds room, a close notice comes before it is read, and all of it is lost |
| NetRuns.RunSnoc | esp01/esp01.c:135-342 | a run goes on with any step that is possible |
| NetLaws.SocketOpens | net/netdev.c:147-165 | the returned descriptor is new and leads to an empty, unbound socket that no other descriptor leads to |
| NetLaws.AcceptOpens | net/netdev.c:267-288 | the returned descriptor is new and leads to the socket that waited longest, now on the listener's device; an error changes nothing |
| NetLaws.AcceptedInOrder | net/netdev.c:267-288 | over any run: the connections handed out on a listener, each with the address told, followed by those that wait, are those that waited before followed by the new ones, each with the address it came from, in order |
| NetLaws.ConnectLinks | net/netdev.c:183-193 | after a connect that returns 0 the socket, unbound before, is bound to a device that matches the address and linked there, whatever came in between |
| NetLaws.CloseUnlinks | net/netdev.c:392-427 | after a close that returns 0 a listener is no longer server, and any other socket is at no link of any device |
| NetResults.SocketMeans | net/netdev.c:147-165 | the whole state after `bos_socket` and the descriptor returned |
| NetResults.BindReports | net/netdev.c:200-217 | 0 exactly if some device has the domain and network of the address, and then the socket belongs to the first of them; else -1 and nothing changes |
| NetResults.ConnectGoesOn | net/netdev.c:167-198 | a connect sends its command exactly if the socket is unbound and the first device that suits has a free link, and takes the first free one; the device stays bound when there is none |
| NetResults.ConnectReports | esp01/esp01.c:135-155 | 0 exactly if it sent its command and the answer was good; then the link is the socket's, and a bad answer changes nothing more |
| NetResults.ListenGoesOn | esp01/esp01.c:157-177 | a listen sends its command exactly for a bound stream without backlog whose device has no server; else -1 |
| NetResults.ListenReports | esp01/esp01.c:157-177 | 0 exactly if it sent its command and the answer was good, and then the socket is the server |
| NetResults.AcceptReports | net/netdev.c:247-295 | a new descriptor exactly for a bound stream at which a client waits; else -1 and nothing changes |
| NetResults.CloseGoesOn | net/netdev.c:392-427 | -1 without a descriptor, 0 for a disconnected or unbound socket; else a command exactly if the socket serves or has a link at its device, and -1 if not |
| NetResults.CloseReports | esp01/esp01.c:179-206 | 0 exactly if there was nothing to close or the command was answered well, and then the place as server or the link is given up |
| NetResults.RecvReports | net/netdev.c:348-390 | exactly min(n, unread) first bytes of a stream, or of the first datagram with its sender; nothing from an empty queue; -1 without a socket; nothing else changes |
| NetResults.SendGoesOn | net/netdev.c:297-346 | a send starts exactly if there is something to send and the socket has a link at its device: a stream at its own, and no address given; a datagram socket at the first that suits the address, or its own |
| NetResults.SendReports | esp01/esp01.c:208-240 | the size exactly if it has a device and, for a nonempty send, a link there and two good answers; else -1 |
| NetResults.SendFinishes | esp01/esp01.c:208-240 | the second command follows a good answer to the first; answers change nothing but the result |
| NetResults.ReceivedMeans | esp01/esp01.c:287-308 | a frame goes to the socket at its link, a datagram whole and with its sender, to a stream as far as there is room; nothing else changes |
| NetResults.AcceptedMeans | esp01/esp01.c:310-330 | without a server nothing happens; else a new socket with the peer's address is at the link and waits at the server; nothing else changes |
| NetResults.ClosedMeans | esp01/esp01.c:332-342 | the link is empty and the socket that was there is taken from its node, if it has one; nothing else changes |
| NetSenders.Conservation | net/netdev.c:366-389 | over any run and for any socket: the bytes returned, each with the sender told, followed by the unread ones are those that were there followed by those that arrived, each with the sender of its frame |
| NetSenders.SendersAreTold | esp01/esp01.c:296-305 | from the start: bytes and senders returned are a prefix of those that arrived |
| NetTakes.GivenMeans | esp01/esp01.c:310-342 | a series of events ends with the link given to a new socket exactly when there is a server, a connection came for the link and no close notice after the last one |
| NetTakes.FateMeans | esp01/esp01.c:310-342 | what is at a link when the answer comes: the old socket, none, or a new one, as the events in between say |
| NetTakes.CloseTakes | esp01/esp01.c:179-206 | a close that returns 0 takes the link of another socket exactly when its own link was given away while it waited; that of a listener never does |
| NetTakes.ConnectTakes | esp01/esp01.c:135-155 | a connect that returns 0 takes the link of another socket exactly when the link that was free at its start was given away while it waited |
| NetTakes.OverwritingRun | esp01/esp01.c:310-330 | a reachable run after which an accepted socket keeps its descriptor and is at no link |
| NetTakes.ClosingRun | esp01/esp01.c:179-206 | a reachable run in which a close returns 0 and leaves a new socket without its link |
| NetTakes.ConnectingRun | esp01/esp01.c:135-155 | the same for a connect |
| NetNames.NamesOfRun | net/netdev.c:159-163 | over any run: a number is a name exactly if it was one, or the counter passed it, or an accept succeeded on the descriptor before it |
| NetNames.AcceptRepeats | net/netdev.c:247-288 | a successful accept on `fd` repeats a name exactly when `bos_socket` was called `fd + 1` times or an accept on `fd` succeeded before |
| NetNames.SocketRepeats | net/netdev.c:159-163 | the n-th call of `bos_socket` repeats a name exactly when an accept on descriptor n - 1 succeeded before |
| NetNames.NamesTell | net/netdev.c:484-515 | as texts the names are equal exactly when the numbers are |
| NetNames.TwoAcceptsOneName | net/netdev.c:282-286 | a run with two accepts on one listener whose nodes have the same name |
| NetObjects.Netdev.GetLinkId | esp01/esp01.c:344-354 | the search loop over the link array |
| NetObjects.Socket.constructor | net/netdev.c:99-117 | a new socket has no device, client or datagram, and a stream socket an empty ring of 32 bytes |
| NetObjects.Socket.Enqueue | esp01/esp01.c:295-307 | on ring and datagram list: what a frame does to a socket |
| NetObjects.Socket.Dequeue | net/netdev.c:366-389 | on ring and datagram list: what a read does, the bytes it stores, and the sender of the datagram |
| NetStack.Stack.constructor | net/netdev.c:41-64 | new objects, apart from the devices, that stand for the initial state of the machine, with the name counter at 0 |
| NetStack.Stack.AssignNetdev | net/netdev.c:460-480 | the loop over the devices binds the socket to the first that matches, or leaves it |
| NetStack.Stack.SockDisconnect | net/netdev.c:126-136 | the search over the nodes finds the socket's node and clears it, and does nothing when there is none |
| NetStack.Stack.DestroyNode | net/netdev.c:420-421 | destroying a node that a descriptor refers to fails and changes nothing |
| NetStack.Stack.Recv | esp01/esp01.c:287-308 | the callback for a frame, on the objects, is the step of the machine |
| NetStack.Stack.AcceptEvent | esp01/esp01.c:310-330 | so is the one for a connection: a new socket at the link, waiting at the server |
| NetStack.Stack.ClosedEvent | esp01/esp01.c:332-342 | and the one for a closed link |
| NetStack.Stack.Deliver | esp01/serial.c:143-163 | any series of callbacks while a call waits |
| NetCalls.CallIsRun | esp01/serial.c:124-129 | a whole call, with replies and everything delivered meanwhile, is a run of the machine and does not end waiting |
| NetCalls.Command | esp01/serial.c:124-129 | sending a command and waiting leaves the state that the delivered events make, for any answer |
| NetCalls.EspConnect | esp01/esp01.c:135-155 | picks a free link before the command and occupies it after a good reply |
| NetCalls.EspListen | esp01/esp01.c:157-177 | becomes the server after a good reply; a backlog or a second server is refused |
| NetCalls.EspClose | esp01/esp01.c:179-206 | gives up the server place or the one link of the socket after a good reply |
| NetCalls.EspSend | esp01/esp01.c:208-240 | nothing for no bytes, an error without a link, and otherwise two commands, the second with the data up to its terminator |
| NetCalls.BosSocket | net/netdev.c:147-165 | a new socket, node and descriptor; the node is named by the counter, and all other nodes keep their names |
| NetCalls.BosConnect | net/netdev.c:167-198 | refuses bound sockets, binds, and connects, as the machine does with these replies and events |
| NetCalls.BosBind | net/netdev.c:200-217 | binds to the first device that matches |
| NetCalls.BosListen | net/netdev.c:219-245 | refuses datagram and unbound sockets and listens otherwise |
| NetCalls.BosAccept | net/netdev.c:247-295 | hands out the first waiting client and its address with a new node and descriptor; the node is named after the caller's descriptor |
| NetCalls.BosSendTo | net/netdev.c:297-346 | the error cases of streams and datagrams, binding on the way, and the device's send, with the data that goes out |
| NetCalls.BosRecvFrom | net/netdev.c:348-390 | stores exactly the bytes the machine returns, tells the sender of a datagram, and leaves the rest of the destination alone |
| NetCalls.BosClose | net/netdev.c:392-427 | closes at the device; the node and its descriptor survive |
| NetSession.Perform | net/netdev.c:147-427 | one call of any kind on the objects ends as the machine says, and only new objects join the stack |
| NetSession.Session | net/netdev.c:147-427 | any series of calls and deliveries on the objects returns what the machine returns and is one run of it |
| NetSession.FromStart | net/netdev.c:41-427 | from unused devices on: set-up and any series of calls are a run from the initial state, and every socket has received a prefix of what arrived for it |
| NetSession.ActIsRun | net/netdev.c:147-427 | one act is a run of the machine |
| EndToEnd.LinkStays | esp01/esp01.c:135-342 | a socket loses its link in exactly these steps: a close notice for it, a connection on it while there is a server, a good answer to a close or connect of that link |
| EndToEnd.ConnectionOverwrites | esp01/esp01.c:310-330 | a connection on an occupied link: the new socket is there, the old one at no link at all, and every node keeps its socket |
| EndToEnd.StaysIffKept | esp01/esp01.c:135-342 | over any run, a socket is at its link all the time exactly when no such step occurs |
| EndToEnd.SparedKeeps | esp01/esp01.c:135-342 | it keeps the link if nobody closes it through its own descriptors or over the wire and no connection overwrites it, whatever happens to others |
| EndToEnd.RoutedIsSent | esp01/esp01.c:294 | while it does, exactly the frames for that link reach it |
| EndToEnd.CallbacksTell | esp01/serial.c:200-234 | the callbacks for any series of items are these, one by one |
| EndToEnd.WireToCallbacks | esp01/serial.c:133-234 | items rendered onto a wire come out of the reader thread as callbacks for exactly the frames, with link, payload, address and port, and the close notices, with their links, in order |
| EndToEnd.LinkToApplication | esp01/esp01.c:287-308 | a socket that keeps its link reads exactly what was sent to the link, in order, apart from what is still unread, if and only if it always found room; and always a prefix of what did |
| EndToEnd.WireToApplication | esp01/serial.c:133-234 | both together: from rendered bytes on the wire to the bytes `bos_recvfrom` returns, amid any calls, connections, close notices and events of other devices that leave the link alone |

## Left out

- Terminal setup, opening and writing the serial device, thread creation, debugging output: the wire is an input sequence, a command a step.
- The query in `accept` of esp01/serial.c: inside the reader thread it asks the module on the same wire and indexes without bounds. The line that announces a connection is dispatched with its link; the reply to the query is not part of the input here, and a new connection is an event with a link and an address of its own.
- The text of AT commands, `configure`, `send_cmd` beyond its reply, and what the firmware does: a command is answered well or badly at any time.
- main/main.c and main/opt.c: a demonstration program and its options.
- include/sys/list1.h and sys/list1.c: not used by the stack and a simpler case of what is proved of the other list.
- `list_find_str`, `fs_fd_release`, `netdev_release`, `netdev_sock_free`, `bos_net_configure` and the callbacks for open, read and write: stubs, forwards and one-liners.
- The VFS `close` callback (net/netdev.c:435-449): it reads the descriptor after freeing it; nothing in the stack calls it.
- Memory layout, casts, flexible arrays and failing allocation: fields are typed, objects fresh.
- The array of `inet_addr` without room for its terminator, and the array of `recv` whose size comes off the wire: texts and payloads are sequences.
- Descriptors, file systems, devices, datagrams and waiting clients are held in sequences; the linked form of such lists is what List2 is about. The children of a node are linked.
- Several threads that issue commands, spurious wakeups and weak memory: the code supports none of them.
- The callbacks of the driver and the stretches of a call between two commands are single steps of the network machine, although the source takes no lock on datagram and client lists.
- Framing.ParseLine: does not model the look-behind of a line that is too short, which in the source reads in front of the buffer; such a line matches nothing.
- Framing.ParseConnect: does not model a link number of five characters or more, which the source copies without a terminator.
- Framing.Recv: does not model a negative link number, which the source would use as an index, and takes a negative size as the unsigned number with its bits.
- Numerals.AtoiOfDigits: does not model overflow of `atoi`, which C leaves undefined; Framing.RoundTrip is stated for numbers that do not overflow.
- Fs.FileSystem.FdAlloc: does not model overflow of the id counter.
- Fs.FileSystem.NodeDestroy: requires a node with a parent, for the source dereferences it.
- NetCalls.BosSocket: requires that the number in the node's name has fewer than eight digits, the room the source gives it. Only one address family exists.
- NetCalls.BosSendTo: takes the memory from the data pointer on as a sequence; that there is a terminator in it is up to the caller. Every driver callback is taken to be present, as it is in esp01/esp01.c.
- NetCalls.BosRecvFrom: tells the whole sender; how many of its bytes fit the caller's address is not modelled, because addresses have no byte layout here. The read index of a new datagram, which the source leaves uninitialised, starts at 0, and so does a new socket's address.
- NetCalls.BosAccept: tells the whole client address, likewise.
- NetObjects.Socket.Dequeue: tells the whole sender, likewise.
- FsSession.Session: destroys no root, for the source needs a parent; a node is named by a descriptor, and Fs.FileSystem.NodeDestroy speaks of any node with a parent.
- NetCalls.BosListen: requires a descriptor that exists and still has its socket, as do NetCalls.BosBind and NetCalls.BosAccept, because the source does not check.
