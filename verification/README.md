# udns, uthash and utlist: a Dafny model

This project models three connected parts of the repository and proves properties of them.

**The stub resolver** (`udns/udns_resolver.c`). `ResolverModel` is the resolver as a state machine: one
event (a submission, an expired deadline, a reply, a cancellation, a close) takes one state to the next.
The packets that arrive, the clock, the random numbers and the status of a positive answer are inputs.
`ResolverRuns` finds the invariant, `ResolverTheorems` states what holds after every run. `ReplyHeader` is the header
of a reply; `ResolverReplies` says what each kind of reply does to its query, and `ResolverOrder` in which order a
search tries its names: both in terms of what comes from outside, the bytes of the packet and the settings, and of
what the caller sees, so that they do not rest on the functions that the steps are made of. `ResolverWaits` is about
the time: the 32-bit backoff, the deadlines of whole runs, and the wait that `dns_timeouts` returns. `ResolverQueue` and
`ResolverContext` are the query objects, the linked list of active queries and the context, with the loops
of the C code; every method is proved to do exactly the step of the state machine that its contract names.
`ResolverMessages` is the query packet and the matching of replies, `ResolverAnswers` what a positive reply is
worth, `ResolverRounds` what the rounds of `dns_resolve` use up.

**The name and packet codec** (`udns/udns_dn.c`, `udns/udns_parse.c`, `udns/udns_rr_*.c`). `DomainNames`
defines names as lists of labels, their wire form and their text form. `DnText` and `DnFromText` are the
byte loops between the two. `Packets` is decompression, `RRIter` the record iterator that follows aliases,
`RRBuilders` the builders that measure in a first pass and fill one allocation in a second. `RRRoundTrip` is the way
there and back: what a server encodes in the answer section, for each type of record and also behind an alias, is
what the caller of the parsing routine gets.

**uthash and the list mergesort** (`uthash.h`, `utlist.h`). `UtList` is the doubly linked list with the
in-place bottom-up mergesort, `StableSort` the function that the sort computes and the proof that it is
the stable sort. `Bits`, `Bloom`, `HashChains` and `UtHash` are the hash table: one node is at the same time
in the list of all items and in a bucket chain.

`Seqs` holds facts about slices, `Status` the status codes.

Conventions:

- A byte is a number below 256. Pointers into a packet or a buffer are indices into a sequence or an array.
- The handle inside a hashed structure and the structure are one object, so the conversion between the two
  is the identity; the table pointer that each handle carries is a field of the hash.
- `dns_getdn` checks for room for the label bytes, but for the terminator it compares the start of the buffer
  with its end (`udns/udns_parse.c:58`). `Packets.RoomNeeded` says how much room is enough for every packet:
  one byte more than the smaller of `dnsiz` and 255. Every caller passes exactly 255 bytes and the limit 255
  (`udns/udns_resolver.c:1030`; `dnsrr_dn` and `dnsp_dnbuf`, `udns/udns.h:335` and `udns/udns.h:355`; the
  arrays `mx`, `srv`, `ptr` and `dn` of the builders), so as written a name of 255 label bytes is accepted and
  its terminator goes one byte beyond the buffer (`Packets.CallersOverrun` gives the packet). The model repairs
  these callers: its buffers for decompressed names have 256 bytes. All else about them is as in the source.
- `dns_getstr` reads the length byte before it looks at the bound (`udns/udns_rr_naptr.c:38`). When the data
  of a NAPTR record have fewer than five bytes, or end before the third string, and the record ends the packet
  (or comes within four bytes of its end), that byte lies behind the packet. `RRBuilders.GetStr` lets it be any
  byte; whatever it is, the result is the protocol error.
- A query object carries a serial number where the C code has its address. What has happened to a query
  (`History`) exists in the model only.
- The server masks are sets of server numbers; a server address is a number.
- `sendto` fails or succeeds arbitrarily at each of the ten attempts, and the random numbers of `dns_newid` are
  arbitrary. A shift by 32 or more, which 33 to 50 tries can reach and C leaves undefined, gives an arbitrary
  value (`beyond` in `ResolverModel.Sending`).
- The time is a number of seconds that does not go below 0; the clock may be set back. `dns_timeouts` converts the
  time to the first deadline to an int (`ResolverWaits.AsInt`, in two's complement). `dns_resolve` multiplies it by
  1000 for `poll`; where that product does not fit an int, `poll` may return at any time.
- Assertions are compiled out (`NDEBUG`): `dns_cancel` and `dns_resolve` refuse a query that `dns_resolve` waits
  for by their return value.

Where the code and its comments differ, the model follows the code.

- The wait between tries does not always double: up to 32 tries it does exactly if the last one still fits 32 bits
  (`ResolverWaits.BackoffExact`). It can even be 0 within the ranges of the options, so that a query which has just
  been sent is due again at once: `ResolverWaits.BackoffCanVanish` is a run that gets there,
  `ResolverWaits.WaitVanishesIff` the condition on the options.
- `dns_timeouts` does not always return the time to the first deadline: when that time does not fit an int, the
  result is negative or wrong, and `dns_resolve` leaves its loop while the query is active, with a result that was
  never set. `ResolverWaits.WaitTurnsNegative` is a run that gets there, `ResolverWaits.WaitIsRight` the condition on
  a call, and `ResolverWaits.WaitsBelow` the condition on the options, for all runs whose clock does not go back.
- `dns_stdrr_size` reads the question name of a reply as if it were written out. `ResolverAnswers.CompressedQuestion`
  is a reply that the resolver accepts and whose question runs off the packet; `RRBuilders.SizesAgreeIff` says when
  the two passes agree about the question name.
- The active list is first in first out only among queries that have been sent; new ones stand in front, the newest
  first. `dns_newid` settles for an id in use after five draws; `dns_skipdn` rejects a pointer that ends the packet,
  which `dns_getdn` accepts (`Packets.SkipAgrees`).

## Model

| member | source | states |
|---|---|---|
| ResolverTheorems.ExactlyOnce | udns/udns_resolver.c:606-624 | after any run each submitted query is in exactly one place, once: active, completed with one callback, cancelled, or dropped by close; the active count is what is left |
| ResolverTheorems.EachOnce | udns/udns_resolver.c:606-624 | the same for every state that meets the invariant, also across changes of the search list |
| ResolverRuns.SearchChanged | udns/udns_resolver.c:328-346 | a change of the search list while no query is active keeps the invariant; the plans of earlier queries are those of the list that they were submitted under |
| ResolverTheorems.SortedByDeadline | udns/udns_resolver.c:821-832 | in every reachable state the active list is sorted by deadline; of two sent queries with equal deadlines the one sent earlier stands in front; queries not yet sent stand before sent ones of the same deadline, and of two of them the one submitted later |
| ResolverTheorems.BoundedRetries | udns/udns_resolver.c:841-866 | whatever the network does, a query is sent at most ntries*nserv + nserv times under one id, and a bounded number of times in its life |
| ResolverTheorems.EventProgress | udns/udns_resolver.c:1141-1198 | an event touches one query; a query that stays active was sent at most once and then its measure (candidates, servers with EDNS0, tries, servers left) went down; skipped servers stay skipped and are not sent to under the same name |
| ResolverTheorems.OnlyAskedServers | udns/udns_resolver.c:1071-1081 | a reply changes something only if it comes from a server that is not given up and that the query was sent to, under its present id, more often than replies of that server have been processed |
| ResolverTheorems.RepliesAnswerSendings | udns/udns_resolver.c:1071-1081 | in every reachable state and for every server: the replies processed under the present id, and one more if a reply is waited for, are at most the sendings to it |
| ResolverTheorems.StaysSkipped | udns/udns_resolver.c:1170-1193 | between any two states of a run in which a query has the same name, every server that it skipped at first is still skipped at last, and the query was not sent to it in between |
| ResolverTheorems.SearchVerdict | udns/udns_resolver.c:1097-1139 | a search that ran out has tried exactly the plan of the search list it was submitted under, the name as it is exactly once; each name was answered by a packet with code 3, or with code 0, not truncated and no answers; the status is NODATA (-4) if and only if one of these packets was of the second kind, else NXDOMAIN (-3) |
| ResolverTheorems.TriedInOrder | udns/udns_resolver.c:728-746 | at any time the names tried, followed by those left, are the plan, the current name is the last one tried, and the name as it is has been tried at most once |
| ResolverOrder.TriedOrder | udns/udns_resolver.c:909-920 | in every reachable state the names tried are a beginning of this list: without a search only the name as it is; with more labels than ndots the name as it is and then every suffix that keeps within 255 bytes, in the order of the search list; else these suffixes, with the name as it is where the root first stands in the list, or at its end |
| ResolverOrder.CompletedOrder | udns/udns_resolver.c:909-920 | the same for every completed query, under the search list of its submission; and all of the list if its search ran out |
| ResolverOrder.AsIsLast | udns/udns_resolver.c:334-346 | when no element of the search list is the root, the name as it is comes last, and only suffixes that make a name of more than 255 bytes are passed over |
| ResolverOrder.FittingOrder | udns/udns_resolver.c:728-746 | the candidates that dns_next_srch finds are the names of these places, one after the other |
| ResolverOrder.SubmittedAs | udns/udns_resolver.c:889-920 | the name, type, class, flags and wish for a search on record are those of the submission, and the new query is due at once |
| ResolverReplies.PositiveReply | udns/udns_resolver.c:1084-1128 | code 0, TC clear, ANCOUNT not 0, from a server that is waited for: the callback gets the status of the answer and the query is done |
| ResolverReplies.LastNegativeReply | udns/udns_resolver.c:1097-1139 | code 3, or code 0 with TC clear and ANCOUNT 0, when no candidate is left: the callback gets NODATA (-4) if this reply or an earlier one was of the second kind, else NXDOMAIN (-3) |
| ResolverReplies.NegativeReply | udns/udns_resolver.c:1097-1133 | the same replies when a candidate is left: the first one left is the next name, asked of all servers anew, and the only callback this can lead to is TEMPFAIL (-1) |
| ResolverReplies.UselessReply | udns/udns_resolver.c:1086-1198 | another code, or code 0 with TC set, or code 1 or 4 when EDNS0 cannot be given up: the only callback this can lead to is TEMPFAIL (-1); as long as it is active, under the same name, the server is skipped; nothing is sent while another reply is awaited |
| ResolverReplies.FormatReply | udns/udns_resolver.c:1141-1159 | code 1 or 4, with EDNS0 in use for this server: the query goes to the same server again, and the packet for it has no OPT record unless DO is set |
| ResolverReplies.ReplyCalls | udns/udns_resolver.c:1084-1139 | the list of callbacks after any such reply, in terms of the bytes of its header |
| ResolverTheorems.RunOk | udns/udns_resolver.c:210-222 | the invariant, with the list assertion that the debug build checks, holds after every run |
| ResolverTheorems.ExpireFuel | udns/udns_resolver.c:1221-1232 | each round of the loop of dns_timeouts leaves fewer sendings to come, so the loop ends |
| ResolverTheorems.NetworkFuel | udns/udns_resolver.c:961-1236 | no run of replies and expired deadlines leaves more sendings to come than there were |
| ResolverTheorems.WorkedOff | udns/udns_resolver.c:1203-1236 | a run of expiry events after which no deadline has passed uses up a sending if one was due |
| ResolverTheorems.StillThere | udns/udns_resolver.c:1271-1289 | under clock and network events an active query stays active until its callback runs; an empty list means it has run |
| ResolverWaits.BackoffExact | udns/udns_resolver.c:821-822 | up to 32 tries: the wait is timeout * 2^try at every try that the options allow if and only if timeout * 2^(ntries - 1) is below 2^32 |
| ResolverWaits.DeadlineIs | udns/udns_resolver.c:821-822 | a query that has just been sent is due in one second if there is another server to ask, and else in timeout * 2^try seconds if that fits 32 bits |
| ResolverWaits.BackoffIsZero | udns/udns_resolver.c:821-822 | the wait of a try is 0 if and only if the timeout is a multiple of 2^(32 - try) |
| ResolverWaits.BackoffNeverZero | udns/udns_resolver.c:821-822 | up to 32 tries: no wait that the options allow is 0 if and only if the timeout is no multiple of 2^(33 - ntries) |
| ResolverWaits.NeverDueAtOnce | udns/udns_resolver.c:821-832 | up to 32 tries, and unless the timeout is a multiple of 2^(33 - ntries): no expired deadline and no reply of any run leaves a query that has just been sent and is due again at once |
| ResolverWaits.WaitVanishesIff | udns/udns_resolver.c:821-832 | up to 32 tries: a run in which a query that has just been sent is due again at once exists if and only if there is a server and the timeout is a multiple of 2^(33 - ntries) |
| ResolverWaits.BackoffBelow | udns/udns_resolver.c:821-822 | all waits that the options allow are below a limit of at most 2^31 if and only if timeout * 2^(ntries - 1) is, computed without wrap-around |
| ResolverWaits.KthSending | udns/udns_resolver.c:841-866 | for any settings and any number of servers a run reaches every try and every server, when nothing is answered |
| ResolverWaits.RunNear | udns/udns_resolver.c:821-832 | a run keeps every deadline within the limit as long as the clock does not go back and the longest wait of the options is below it |
| ResolverWaits.WaitsBelow | udns/udns_resolver.c:821-832 | in all runs, looked at no earlier than any event, every deadline is within the limit if and only if nothing is ever sent or timeout * 2^(ntries - 1) is below it |
| ResolverWaits.WaitIsRight | udns/udns_resolver.c:1221-1235 | the value that dns_timeouts returns is the smaller of maxwait and the time to the first deadline if and only if that time fits an int, or what the conversion leaves of it is no less than a maxwait that is not negative |
| ResolverWaits.WaitTurnsNegative | udns/udns_resolver.c:1223-1225 | with a timeout of 256, 24 tries and one server a run leads to a deadline 2^31 seconds ahead, where dns_timeouts returns a negative number for every maxwait although a query is active |
| ResolverWaits.BackoffCanVanish | udns/udns_resolver.c:180-184 | with a timeout of 256, 25 tries and one server, all within the ranges of the options, a submission and 25 expired deadlines lead to a query that has just been sent and is due at once |
| ResolverRuns.PlanIs | udns/udns_resolver.c:909-920 | the plan of a search holds the name as it is exactly once, and besides it exactly the names made with suffixes that keep within 255 bytes |
| ResolverRuns.AsIsFits | udns/udns_resolver.c:917-920 | a search that has not tried the name as it is, and whose name fits 255 bytes, finds a next candidate |
| ResolverRuns.FirstSearchFinds | udns/udns_resolver.c:917-920 | the unchecked dns_next_srch at submission succeeds if and only if the name has at most 255 bytes; one of 256, which the query object holds, finds no candidate |
| ResolverRuns.FittingFromNext | udns/udns_resolver.c:731-745 | the element that dns_next_srch stops at is the first candidate left, and the rest are those behind it |
| ResolverRuns.RetryBound | udns/udns_resolver.c:716-723 | the counters of a query bound how often it has been sent |
| ResolverRuns.SendChange | udns/udns_resolver.c:841-866 | dns_send ends a query or sends it once, to a server that is not skipped, and keeps its invariant; tries or server index grow |
| ResolverRuns.ReplyChange | udns/udns_resolver.c:1081-1198 | every reply keeps the invariant of its query and makes one of three changes; a reply that is not waited for makes none |
| ResolverRuns.TakeUpOk | udns/udns_resolver.c:740-745 | taking up the next candidate keeps the invariant and uses up one candidate |
| ResolverRuns.ExhaustedOk | udns/udns_resolver.c:1104-1108 | at the end of the search list all candidates have been tried and the status tells NODATA from NXDOMAIN |
| ResolverRuns.NewQueryOk | udns/udns_resolver.c:902-920 | a new query meets the invariant |
| ResolverRuns.PlaceIs | udns/udns_resolver.c:826-831 | insertion from the tail puts a query behind exactly those that are due no later |
| ResolverRuns.OrderedPlace | udns/udns_resolver.c:824-832 | re-insertion of the query sent last keeps the order |
| ResolverRuns.ApplyLedger | udns/udns_resolver.c:417-437 | no change of a query loses or doubles one |
| ResolverRuns.StepInv | udns/udns_resolver.c:881-1200 | every event keeps the invariant |
| ResolverRuns.RunInv | udns/udns_resolver.c:881-1200 | so does every run |
| ResolverModel.NextFit | udns/udns_resolver.c:731-739 | the loop of dns_next_srch stops at an element that fits, or behind the list |
| ResolverModel.FindServ | udns/udns_resolver.c:753-760 | all servers before the one found are skipped, and it is not |
| ResolverMessages.Format | udns/udns_resolver.c:772-800 | the packet written is header, question and OPT record for every setting, and fits 512 bytes; a name of 256 bytes is left out of it |
| ResolverMessages.QueryBytes | udns/udns_resolver.c:772-800 | the bytes of a query: id, RD, AA and CD bits, one question, the name, type and class, and with EDNS0 (DO set, or a buffer above 512 and the server not marked) one additional record: root, type 41, buffer size, DO bit |
| ResolverMessages.TypeAndClassBytes | udns/udns_resolver.c:905-906 | the type stands before the class, each with the higher byte first |
| ResolverMessages.EchoMatches | udns/udns_resolver.c:1006-1048 | any reply with opcode 0 that carries the id, the question count and the question of a sent query passes the checks for that query |
| ResolverMessages.QuestionIff | udns/udns_resolver.c:1027-1043 | a question written out in full is that of the query if and only if the labels are equal but for the case of A to Z and the four bytes behind them are equal |
| ResolverMessages.NoQuestion | udns/udns_resolver.c:1044-1053 | a reply without a question is taken if and only if its code is 1 |
| ResolverMessages.HeaderIs | udns/udns_resolver.c:1009-1013 | a reply is looked at if and only if it has a whole header, at most one question and opcode 0 |
| ResolverQueue.DnsQuery.constructor | udns/udns_resolver.c:889-907 | the fields of a new query |
| ResolverQueue.QList.Remove | udns/udns_resolver.c:99-104 | unlinks one node; head, tail, next and prev agree afterwards |
| ResolverQueue.QList.AddHead | udns/udns_resolver.c:106-113 | links a node in front |
| ResolverQueue.QList.InsertAfter | udns/udns_resolver.c:115-127 | links a node behind a given one, or in front |
| ResolverQueue.QList.InsertByDeadline | udns/udns_resolver.c:826-832 | links a node behind the last that is due no later |
| ResolverQueue.QList.FindId | udns/udns_resolver.c:1016-1025 | finds the first query with an id, or none |
| ResolverQueue.QList.Clear | udns/udns_resolver.c:428-434 | walks the list and empties it |
| ResolverContext.SuffixAt | udns/udns_resolver.c:328-346 | at the position of each element of the packed search list stands its name, behind it begins the next, and the root stands at the end |
| ResolverContext.SamePlace | udns/udns_resolver.c:826-831 | the place found from the tail is the place of the model |
| ResolverContext.DnsCtx.AddSrch | udns/udns_resolver.c:328-346 | without a name the list becomes empty; else the name is appended exactly if it is one and fits the buffer; the list stays packed and ends in the root, and the record of earlier queries stays as it is |
| ResolverContext.DnsCtx.FindServ | udns/udns_resolver.c:753-760 | moves the server index as the model does |
| ResolverContext.DnsCtx.EndQuery | udns/udns_resolver.c:609-624 | removes the query, counts it off and runs its callback once with the status |
| ResolverContext.DnsCtx.NewId | udns/udns_resolver.c:701-723 | every draw but the last met an active query; with fewer than five draws the id is free; all counters and masks are reset |
| ResolverContext.DnsCtx.NextSrch | udns/udns_resolver.c:728-746 | takes up the next candidate that fits, or ends the search, on the packed buffer |
| ResolverContext.DnsCtx.FindFit | udns/udns_resolver.c:731-739 | the loop over the packed search list stops where the model does |
| ResolverContext.DnsCtx.MarkSent | udns/udns_resolver.c:819-822 | the server is waited for, and the deadline is one second ahead if another server is left, else the backoff |
| ResolverContext.DnsCtx.Requeue | udns/udns_resolver.c:824-832 | the query moves to its place in the sorted list |
| ResolverContext.DnsCtx.Transmit | udns/udns_resolver.c:803-815 | sendto is called until it succeeds, ten times at most |
| ResolverContext.DnsCtx.SendThis | udns/udns_resolver.c:766-835 | formats and sends to one server, or ends the query when sending fails ten times |
| ResolverContext.DnsCtx.ChooseServ | udns/udns_resolver.c:848-865 | the next server, in this round or the next, or none |
| ResolverContext.DnsCtx.Send | udns/udns_resolver.c:841-866 | the step dns_send of the model |
| ResolverContext.DnsCtx.SubmitDn | udns/udns_resolver.c:881-932 | for every name that the query object holds, 256 bytes included: puts the new query in front, with the name as it is or the first candidate |
| ResolverContext.DnsCtx.SubmitP | udns/udns_resolver.c:934-948 | submits exactly if the text is a name of at most 255 bytes; an absolute name is not searched for |
| ResolverContext.DnsCtx.CancelQuery | udns/udns_resolver.c:1310-1322 | removes the query without a callback; a query that dns_resolve waits for is refused with BADQUERY and stays |
| ResolverContext.DnsCtx.CloseContext | udns/udns_resolver.c:418-437 | drops all queries without a callback |
| ResolverContext.DnsCtx.Timeouts | udns/udns_resolver.c:1203-1236 | ends with every deadline ahead; the result is maxwait or the int that the time to the first deadline converts to, and it is the smaller of maxwait and that time exactly under the condition of WaitIsRight, so always when the options and the clock keep the deadlines within 2^31 |
| ResolverContext.DnsCtx.WorkOff | udns/udns_resolver.c:1221-1232 | the loop of dns_timeouts terminates and is a run of expiry events |
| ResolverContext.DnsCtx.CheckQuestion | udns/udns_resolver.c:1027-1053 | accepts exactly the replies whose question is that of the query, or FORMERR without one |
| ResolverContext.DnsCtx.FindAddr | udns/udns_resolver.c:1054-1069 | the first server with the address, nserv if none |
| ResolverContext.DnsCtx.Process | udns/udns_resolver.c:1027-1198 | a reply is processed exactly if it matches; the callbacks after it are those of ReplyCalls, in terms of the bytes of its header |
| ResolverContext.DnsCtx.TakeReply | udns/udns_resolver.c:1071-1198 | the step of the model for a matching reply; a positive one ends the query with its length if it is wanted raw, else with the status that the builder gives for the records selected by the question, which is an error or, when the question name is sized rightly, the result |
| ResolverAnswers.CompressedQuestion | udns/udns_resolver.c:1109-1119 | a reply of 33 bytes that is accepted as the answer to a query and whose record is well formed, but whose question name, read without its pointer, runs off the packet |
| ResolverContext.DnsCtx.SearchFurther | udns/udns_resolver.c:1097-1108 | the next candidate is sent, or the query ends with NODATA or NXDOMAIN |
| ResolverContext.DnsCtx.SkipServ | udns/udns_resolver.c:1170-1197 | the server is skipped; the next is asked unless another may still answer |
| ResolverContext.DnsCtx.Dispatch | udns/udns_resolver.c:1015-1048 | the first query with the id is the one meant; a stray packet changes nothing |
| ResolverContext.DnsCtx.Receive | udns/udns_resolver.c:979-1048 | one datagram is one reply event, or none if it is stray |
| ResolverContext.DnsCtx.Ioevent | udns/udns_resolver.c:961-1005 | all datagrams are consumed, as a run of reply events |
| ResolverContext.DnsCtx.Resolve | udns/udns_resolver.c:1250-1292 | refuses no query and a query already waited for; else returns when the callback has run, when the world has no more rounds to offer, or when the wait is negative as an int. When the deadlines keep within 2^31 and the clock does not go back the last does not happen; when they keep within what fits in milliseconds, no more rounds end by the timeout of poll than there were sendings to come |
| ResolverContext.DnsCtx.CallbackRan | udns/udns_resolver.c:1243-1248 | the flag is set exactly if the query is among the completed ones |
| DomainNames.LabelsOfWire | udns/udns_dn.c:27-32 | the wire form of a list of labels reads back as that list, whatever stands around it |
| DomainNames.WireAt | udns/udns_dn.c:27-32 | a terminated chain of labels is the wire form of the labels read from it |
| DomainNames.TextRoundTrip | udns/udns_dn.c:66-145 | the text of any well-formed name reads back as the same labels, and is absolute only for the root |
| DomainNames.DotMakesAbsolute | udns/udns_dn.c:80-145 | the text with a dot behind it reads back as the same labels and is absolute |
| DomainNames.EscapeIs | udns/udns_dn.c:300-327 | the bytes " $ . ; @ \ are written behind a backslash, the others from ! to ~ as they are, the rest as a backslash and three decimal digits of that value |
| DomainNames.DigitsRead | udns/udns_dn.c:116-131 | a backslash and one to three digits, as many as there are, are the byte with that number, and an error above 255 |
| DomainNames.PlainText | udns/udns_dn.c:287-334 | the text of a name whose bytes need no escape, such as a host name, is its labels with dots between them |
| DomainNames.SameNameIs | udns/udns_dn.c:41-55 | names compare equal if and only if their bytes are equal but for the case of the letters A to Z |
| DomainNames.TextSizeBound | udns/udns_dn.c:250-282 | a name of at most 255 bytes needs at most 1013 bytes of text, and the cap at 1024 never fires |
| DomainNames.NoZeroInText | udns/udns_dn.c:287-334 | the text contains no zero byte, so it is a C string |
| DnText.DnLen | udns/udns_dn.c:27-32 | the length of the name, terminator included |
| DnText.DnLabels | udns/udns_dn.c:34-39 | the number of labels |
| DnText.DnEqual | udns/udns_dn.c:41-55 | nonzero exactly if the names are the same but for case, and then the length |
| DnText.DnToDn | udns/udns_dn.c:57-64 | copies the name exactly if it fits |
| DnText.DnToPSize | udns/udns_dn.c:250-282 | the size of the text, 0 beyond 1024 |
| DnText.DnToP | udns/udns_dn.c:287-334 | succeeds exactly if the buffer holds the size of the text, then writes the text and returns the size; else writes the pieces of the text that fit; writes nowhere else |
| DnText.StoredIs | udns/udns_dn.c:287-334 | all bytes of the text are stored if and only if the text fits, and some always are |
| DnText.EscapeSize | udns/udns_dn.c:260-276 | the size pass counts what the writing pass writes for each byte |
| DnFromText.PToDn | udns/udns_dn.c:66-145 | succeeds exactly on texts that name a list of labels whose wire form fits min(dnsiz, 255), and writes that wire form; tells absolute names; the error value otherwise |
| DnFromText.BufferRoundTrip | udns/udns_dn.c:66-145 | a buffer filled by dns_dntop, given to dns_ptodn, gives the same labels |
| DnFromText.AcceptedIsWellFormed | udns/udns_dn.c:66-145 | what dns_ptodn accepts is well formed, with labels of 1 to 63 bytes |
| Packets.GetDn | udns/udns_parse.c:42-89 | ends on every packet; succeeds exactly if at most 100 pointers lead to a root label and the label bytes fit min(dnsiz, 255), then writes the expanded labels, with the terminator if the buffer has room for it, and moves behind the first pointer or terminator |
| Packets.NameAtUnique | udns/udns_parse.c:53-86 | a position spells at most one name |
| Packets.ExpandIff | udns/udns_parse.c:51-75 | expansion finds a name exactly if the packet spells it by way of at most that many pointers |
| Packets.JumpLimit | udns/udns_parse.c:51-69 | a name is found if and only if at most 100 pointers lead to its end |
| Packets.PointerLeads | udns/udns_parse.c:65-75 | two bytes, the first at least 64, lead to the offset in their low 14 bits, unless that is in the header |
| Packets.CompressionRoundTrip | udns/udns_parse.c:53-86 | the wire form of a tail at offset o, and elsewhere labels followed by the pointer to o, are read as the labels and the tail; the position behind is that behind the pointer |
| Packets.CyclicPointers | udns/udns_parse.c:65-75 | pointers that lead back to each other spell no name |
| Packets.ExpandWire | udns/udns_parse.c:42-89 | a name written out in full decompresses to its labels and the position behind it |
| Packets.RoomNeeded | udns/udns_parse.c:46-63 | every name accepted from any packet fits a buffer if and only if the buffer has one byte more than the smaller of dnsiz and 255 (one byte for dnsiz 1, where only the root is accepted) |
| Packets.CallersOverrun | udns/udns_resolver.c:1030-1031 | 255 bytes of room and the limit 255 are not enough: a packet whose name is accepted and takes 256 |
| Packets.SkipDn | udns/udns_parse.c:28-40 | the position behind the name |
| Packets.SkipAgrees | udns/udns_parse.c:28-40 | it is where dns_getdn moves to, except over a pointer that ends the packet |
| RRIter.ScanIsFilter | udns/udns_parse.c:114-151 | the selection is a filter: no hit before some record, aliases followed up to there, and from there on exactly the hits for the name reached; the ttl is the minimum over hits and aliases |
| RRIter.AfterFirstHit | udns/udns_parse.c:133-147 | after the first hit no alias is followed and exactly the hits are selected |
| RRIter.Parse.constructor | udns/udns_parse.c:99-112 | the iterator stands before the whole selection; type and class 255 mean any |
| RRIter.Parse.Rewind | udns/udns_parse.c:91-97 | the same selection comes again |
| RRIter.Parse.NextRr | udns/udns_parse.c:114-151 | returns the next selected record and counts it; at the end name and ttl are those of the selection; -1 exactly at something malformed |
| RRIter.Parse.Follow | udns/udns_parse.c:140-147 | an alias replaces the name asked for, if its data are exactly a name |
| RRIter.Rr.Read | udns/udns_parse.c:118-130 | reads a record exactly if it is well formed and inside the packet |
| RRRoundTrip.HitIsAnswering | udns/udns_parse.c:131-147 | a record is a hit if and only if its owner is the name asked for and its type bytes and class bytes equal those of the question, or these are 0 or 255; an alias if it has the owner, is no hit and its type bytes are 0 5 |
| RRRoundTrip.SelectedIs | udns/udns_parse.c:99-151 | what is selected is, byte for byte, what answers the question: records with the owner that aliases in front of the first have led to |
| RRRoundTrip.SelectedAfterFirst | udns/udns_parse.c:131-139 | when the question names a type and a class, a record with the owner is selected behind the first if and only if its four bytes equal those of the question |
| RRRoundTrip.EntryGives | udns/udns_rr_srv.c:71-80 | the entry for a record whose data are the encoding of address, strings, name, MX, SRV or NAPTR data has exactly these named numbers and strings, and a name that reads back |
| RRRoundTrip.ReplyStatus | udns/udns_parse.c:99-151 | a reply with any number of answers, whose owners point to the question name, is selected whole and in order, with the least time to live; the status is 0, or NODATA (-4) without answers |
| RRRoundTrip.AnswerRoundTrip | udns/udns_rr_mx.c:30-77 | the block built from such a reply gives the data of all answers, in order, the least time to live, and the name |
| RRRoundTrip.AliasStatus | udns/udns_parse.c:140-147 | with an alias of the question name in front, the answers for its target are selected, and the time to live of the alias counts |
| RRRoundTrip.AliasRoundTrip | udns/udns_rr_mx.c:30-77 | the block built from it gives the data of all answers, the target as their name, and the name asked for |
| RRBuilders.Build | udns/udns_rr_mx.c:30-77 | for every packet: the error that applies; and, when the question name is sized rightly, a block whose area the second pass fills to the last byte that the first pass counted |
| RRBuilders.SizesAgreeIff | udns/udns_parse.c:153-169 | whatever stands behind the packet in memory, dns_dntop_size counts for the question name what dns_dntop stores, if and only if the name as it stands ends inside the packet and its text fits 1024 bytes |
| RRBuilders.PlainIsSized | udns/udns_parse.c:153-169 | a question name without a pointer that dns_getdn accepts meets that condition |
| RRBuilders.GetStr | udns/udns_rr_naptr.c:33-49 | a character string inside the bound, its length and its copy with a zero byte |
| RRBuilders.MeasureNaptr | udns/udns_rr_naptr.c:66-84 | counts three strings and the name, or reports the malformed record |
| RRBuilders.FillNaptr | udns/udns_rr_naptr.c:101-110 | writes three strings and the name, and remembers where each begins |
| RRBuilders.MeasureTxt | udns/udns_rr_txt.c:44-53 | counts the strings that fill the record exactly |
| RRBuilders.FillTxt | udns/udns_rr_txt.c:69-80 | runs the strings together and ends with a zero byte |
| RRBuilders.MeasureName | udns/udns_rr_srv.c:49-55 | the size of the text of a name that ends with the record |
| RRBuilders.FillNamed | udns/udns_rr_srv.c:71-80 | the named 16-bit fields, and the text of the name |
| RRBuilders.FillAddress | udns/udns_rr_a.c:67-69 | copies the address |
| RRBuilders.FirstPass | udns/udns_rr_ptr.c:43-54 | accepts exactly the answers whose records are all well formed, and counts their bytes |
| RRBuilders.SecondPass | udns/udns_rr_ptr.c:63-73 | writes the bytes of all records, one after the other |
| RRBuilders.StdSize | udns/udns_parse.c:153-158 | the size of the names at the end of the block |
| RRBuilders.StdFinish | udns/udns_parse.c:160-169 | writes them in exactly that size |
| RRBuilders.EntriesStand | udns/udns_rr_naptr.c:99-110 | in a filled area each entry points at the strings of its item |
| RRBuilders.BlockEntries | udns/udns_rr_naptr.c:99-110 | so in a block that dns_parse_* returns, entry i points at the strings that the i-th selected record spells |
| RRBuilders.NameReadsBack | udns/udns_rr_mx.c:64-73 | a name in the block, given to dns_ptodn, is the name that the packet spells |
| StableSort.BottomUpIsStableSort | utlist.h:158-214 | bottom-up merging with doubling runs gives a permutation that is sorted and keeps the order of ties |
| StableSort.StableSortUnique | utlist.h:158-214 | there is only one stable sort of a list, so the result is determined |
| StableSort.MergeSorted | utlist.h:180-204 | merging sorted runs gives a sorted run |
| StableSort.MergeStable | utlist.h:180-204 | merging keeps the order of ties |
| StableSort.PassRuns | utlist.h:168-210 | a pass doubles the length of the sorted runs |
| UtList.List.Sort | utlist.h:158-214 | relinks the same nodes into the stable sort; prev links, head and tail are right |
| UtList.List.SortInOrder | uthash.h:700-777 | the same for the application order of a hash, and returns its tail |
| UtList.List.SortPass | utlist.h:168-207 | one pass over the list is the merging pass of the function |
| UtList.List.Prepend | utlist.h:400-410 | puts a node in front |
| UtList.List.Append | utlist.h:412-424 | puts a node behind the tail |
| UtList.List.Concat | utlist.h:426-439 | joins two lists |
| UtList.List.Delete | utlist.h:441-457 | takes one node out |
| Bits.ShiftAndMaskCeil | uthash.h:618-645 | the shift-and-mask expression is the quotient rounded up |
| Bits.CeilDivLeast | uthash.h:634-642 | the quotient rounded up is the least number of items per bucket that is enough |
| Bits.AndMask | uthash.h:187-190 | masking with 2^n - 1 is the remainder by 2^n |
| Bloom.Filter.Add | uthash.h:124-128 | sets the bit of the hash value and no other |
| Bloom.Filter.Test | uthash.h:130-131 | true exactly if the bit of the hash value has been set |
| HashChains.Table.constructor | uthash.h:140-157 | 32 empty buckets |
| HashChains.Table.AddToBkt | uthash.h:592-603 | the item is in its chain; an expansion loses nothing |
| HashChains.Table.DelInBkt | uthash.h:606-616 | the item leaves its chain, all others stay |
| HashChains.Table.FindInBkt | uthash.h:578-589 | the first item of the chain with the key, or none |
| HashChains.FirstWithKeyIs | uthash.h:578-589 | that item is in the chain and has the key; there is none only if no item of the chain has it |
| HashChains.Table.Expand | uthash.h:647-693 | twice the buckets, the same items, each in bucket hashv & (num_buckets - 1); ideal length and the count of items beyond it are right; no division by zero |
| HashChains.ExcessStep | uthash.h:667-671 | counting an item beyond the ideal length as it arrives keeps the sum of the excesses |
| UtHash.Hash.Find | uthash.h:94-105 | the first item with the key in the chain of its bucket, null exactly if no item has it (the Bloom filter hides none); with unique keys the lookup in the map |
| UtHash.Hash.Add | uthash.h:162-185 | appends the item to the application order and enters it everywhere; a new key is inserted into the map |
| UtHash.Hash.Delete | uthash.h:204-237 | removes exactly this item; the last one frees the table; with unique keys the key leaves the map |
| UtHash.Hash.Sort | uthash.h:700-777 | the application order becomes its stable sort, the bucket chains are untouched, so a find for any key, unique or not, gives the same item as before |
| UtHash.CountsAgree | uthash.h:261-311 | the counts of the buckets, of the table and of the application order are the same number |
| UtHash.FindIsLookup | uthash.h:94-105 | with unique keys finding is the lookup in a map |
| UtHash.AddIsInsert | uthash.h:162-185 | adding is inserting |
| UtHash.DeleteIsRemove | uthash.h:204-237 | deleting is removing |
| UtHash.SortKeepsMap | uthash.h:700-777 | with unique keys the map does not depend on the order of the items |

## Left out

- Packets.GetDn: what the terminator overwrites when it goes one byte beyond the buffer; `Packets.RoomNeeded` says when it does.
- ResolverContext.DnsCtx.CheckQuestion: its buffer has 256 bytes where the code has 255 (see the conventions).
- RRIter.Rr.Read: the owner buffer has 256 bytes where `struct dns_rr` has 255.
- RRIter.Parse.Follow: the alias buffer has 256 bytes where `struct dns_parse` has 255.
- RRBuilders.MeasureName: the name buffer has 256 bytes where the builders have 255.
- RRBuilders.Build: what happens when there is a result and the question name is not sized rightly, where the code reads beyond the packet or writes beyond the block.
- RRRoundTrip.AnswerRoundTrip: the owners of the answers are pointers and the names in their data are written out; `Packets.CompressionRoundTrip` is about names that are cut short. The name asked for is given by the caller, as the resolver does, not taken from the packet.
- RRRoundTrip.AliasRoundTrip: one alias in front of the answers; `RRIter.ScanIsFilter` and `RRRoundTrip.SelectedIs` are about any number of them.
- RRBuilders.StdSize: the reading beyond the packet when the question name does not end inside it.
- RRBuilders.StdFinish: the same, and the writing beyond the block when its text exceeds 1024 bytes.
- ResolverContext.DnsCtx.TakeReply: the status in that case. An answer wanted raw is always copied, and the record types of `RRBuilders` are the parsing routines.
- ResolverContext.DnsCtx.AddSrch: the name is written to a scratch buffer and then copied.
- ResolverContext.DnsCtx.SubmitDn: the flags are those of the caller and of the context together; memory does not run out, and a longer name than the object holds, an assertion in the code, is not submitted.
- ResolverContext.DnsCtx.Resolve: a call of poll that fails is one that returns early with nothing to read; the result that was never set, when the loop is left with the query active, has no value here.
- ResolverModel.Backoff: deadlines are unbounded numbers, so the sum of the time and the wait does not overflow a time_t.
- UtHash.Hash.Add: counters do not wrap at 32 bits, memory does not run out, and the length of a key is part of the key.
- ResolverQueue.DnsQuery.constructor: the name buffer of a query is a sequence field that holds the name without the bytes behind it.
- Sockets, poll and select, the user timer, debug callbacks, option parsing, resolv.conf and the environment: input and output.
- Callbacks that submit or cancel queries while an event is being handled.
- LL_SORT and CDL_SORT of utlist.h: the same merging loop over a list with fewer or circular links.
- HASH_SELECT: it updates neither the tail nor the Bloom filter of its destination, so it does not keep the invariant of the hash.
- Hash functions: any function from keys to 32-bit numbers.
- `dns_a4todn` and its relatives, the SRV name builder, the printing programs and the name tables: single-pass code.
- The IPv6 text conversion of `udns/inet_XtoX.c`, `ini`, `htclient`, `netsocket`, `amysql`, `tracer`, `logger`: outside the three parts.
