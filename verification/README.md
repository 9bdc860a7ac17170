# Verified models of four stateful cores

This project models, in Dafny, four pieces of the repository that keep state across calls, and proves what they
promise over all inputs and all runs:

* the table-driven LALR parser and evaluator of parenthesised expressions
  (`CSC4508/NotionCompilationTraduction/Base/yyparse.c`);
* the chained byte buffer of libevent (`buffer.c`);
* the DNS name codec, message writer and request scheduler of libevent (`evdns.c`);
* the token-bucket rate limiter of libevent (`bufferevent_ratelim.c`).

`dafny verify dfyconfig.toml` checks everything.

## How it is laid out

**Parser.** `CalcGrammar` is the language: expression trees, how they are printed as tokens, and their value.
`YyTables` holds the compressed tables and their meaning; `YyAutomaton` is one pass of the parser as a step on
configurations (`Step`, `Run`); `Yyparse` is the parser itself, a class with its two stacks and its loop, proved to
follow `Run`. `LineReader` reads a line by the grammar, without tables; `YyLines` shows that the automaton does
the same token by token; `YyStream` defines what a whole token stream should give (`Reference`) and proves
`ParserMeetsReference`. `StackNeeds` tells how deep the stack gets.

**Buffer.** `ByteSegments` is the value of a buffer, one byte string per chunk, and where its last data is.
`Evbuffers` has the classes `Chain` and `Evbuffer` and the operations that add and drain; `EvbufferMoves`,
`EvbufferPullup` and `EvbufferSearch` have the others. `Evbuffer.Valid` says that the list holds the segments,
`totalLen` is their length, `last` is the final chunk, and `lastWithDatap` is the link to the last chunk with data,
or the first link when there is none. `Contents` is the flat byte string. `Tight` says that no chunk before the
last one with data is empty, and every operation keeps it.

**DNS.** `DnsNames` has the wire format of section 4.1.4 of RFC 1035 as functions: what a packet says a name is
(`Labels`), and what the compressing writer emits (`Wire`, `Added`). `DnsCodec` has the parser and the writer on
buffers, proved equal to these functions. `DnsMessage` is a whole message as a value and the proof that everything
in it is read back, with the fields of its header bit by bit (`Bits`); `DnsRoom` tells where a message ends that does not fit, and which octets of its buffer are written
by then (a `Draft`, whose gaps show the memory that was there); `DnsServer` and `DnsQuery` are the methods that write and
read messages. `DnsScheduler` is the resolver's bookkeeping, `DnsPick` the fairness of its round robin.

**Rate limiter.** `TokenBuckets` is the refill arithmetic with its machine integers, `RateLimits` the state of one
connection and of a group, `RateBound` the bound on what can be used over time.

`Lists`, `Options` and `Words` are shared.

## The main results

* The parser's run on any finite token stream is the reference meaning of the stream, line by line: a line that is
  the print of an expression is reduced to its value, any other line is reported once (subject to the usual three
  tokens of silence after an error), skipped to its newline, and leaves no trace on later lines. It returns 0 exactly
  when the stream is empty or ends in a newline, unless the nesting exhausts the stack. It never fails by emptying it.
* Each buffer operation is the corresponding operation on a flat byte string, and re-establishes all cached fields; where
  `evbuffer_remove_buffer` meets needless empty chunks that has its exact condition.
  `evbuffer_search_range` finds the first occurrence, across any number of chunks, or there is none.
* Whatever names, numbers and octets are put into a response are read back from it, section by section, to the last
  octet, although names share their endings through pointers. `name_parse` succeeds on exactly the names that end,
  and its limit on jumps refuses only loops. The response to a query brings back its id, its question and the error code.
* After every event of the resolver its counters equal the sizes of its lists, each server's load is the number of
  requests in flight assigned to it, and each request in flight is in the bucket of its id. New requests and those that
  move up get the good servers in turn; each is sent once, or is still marked and its server takes nothing. No request
  waits while there is room.
* A connection without tokens is suspended, and a suspended one has its timer set; the one exception, a refill that wraps
  around, has its exact condition. Over any run of uses and refills a connection uses at most the maximum and the rate
  times the ticks gone by. A member of a group that is held back is never forgotten.

## Facts about the code that the proofs brought out

* `dnsname_to_labels` writes its closing zero without a bounds check. It passes the stated length, by one octet,
  exactly when the name is written out to its end, does not end in a dot, and its labels end with the stated length
  (`DnsCodec.OverrunIff`; a name of one octet at 1498 of 1500 is `DnsCodec.OneOctetTooMany`). The query writer never
  does at the size its caller sets aside (`DnsQuery.RequestLenSuffices`). The server's writer, whose buffer has exactly
  the stated length, can (`DnsRoom.LongRequestOverruns`); a response that is written to its end has done so exactly when
  it is 1501 octets long (`DnsRoom.OverrunsIffTooLong`).
* A name with an empty label or a trailing dot does not survive the wire; `DnsMessage.NameSurvivesIff` gives the exact
  condition, `DnsMessage.TrailingDotIsLost` a case.
* A response in which something cannot be written is sent as 512 octets all the same, with whatever was in memory where
  the writer never got to. `DnsServer.FormatResponse` fixes every octet of it from the memory and `DnsRoom.ResponseDraft`;
  an octet is the same for every memory exactly if the draft has it (`DnsRoom.WrittenIffDetermined`). The draft is the
  whole questions and records, and of the first one that fails the labels in front of a bad label, the fields that fit,
  and a name as data without its length (`DnsRoom.OnlyLengthsAreMissing`). An answer whose name is one label of 64 octets
  stops behind the header (`DnsRoom.BadLabelStops`), and 500 octets of memory are sent (`DnsServer.BadLabelSendsMemory`).
* The refill of a token bucket is `min(maximum, limit + ticks * rate)` exactly while the limit is not above its
  maximum or the wrapped gap is filled (`TokenBuckets.RefillIsNaiveIff`). A negative charge can put it above;
  then it goes on growing (`TokenBuckets.AboveTheMaximumItGrows`), although the comment in the code says that it
  is cut. Refilling in two steps is refilling at once all the same (`TokenBuckets.UpdateThrough`).
* A limit above its maximum that passes the largest signed number on the way wraps to nothing or below. Then a direction
  that was going on has no tokens, is not suspended and has no timer (`RateLimits.WrapForgets`; a run that gets there is
  `RateLimits.ReachesForgotten`). An update loses a direction like that exactly when it is not suspended and
  `TokenBuckets.Wraps` holds of it (`RateLimits.UpdateFitsIff`), never while no limit is above its maximum
  (`RateLimits.WithinMaximumNeverWraps`).
* `evbuffer_prepend` keeps the bytes that fitted into the first chunk when its allocation fails, and
  `evbuffer_remove_buffer` drops exactly the bytes of the last chunk, the ones it copies, when that copy fails. Both are
  in the contracts.
* `advance_last_with_data` stops at an empty chunk, so it finds the last data exactly when no empty chunk is on the way
  (`ByteSegments.AdvanceSufficesIff`). That makes `evbuffer_remove_buffer` leave a stale link to the last data in dst
  exactly when the chunks it moves hold an empty one in front of their last data, other than a first one that becomes
  dst's first (`ByteSegments.JoinsIff`, `EvbufferMoves.TakeMoved`). The bytes that it copies next can then end up in
  front of bytes it has moved (`ByteSegments.GapMisplaces`). In src the link goes stale exactly when the walk passes
  only empty chunks and stops at the last one with data (`ByteSegments.LosesLink`, `GapLosesLink`). Neither happens to a
  `Tight` src (`ByteSegments.TightJoins`).
* `request_parse` masks the flags before it looks at the bits that mark an unsupported kind of query, so that test
  never fires (`DnsQuery.NothingIsUnsupported`).
* A bad answer does not always send its request to another good server although there is one. A request that has not
  been sent leaves its server when that is marked as failed, in turn with the unsent ones behind it, and is finished when
  the server it was given to is the one whose turn it is next. With g other good servers, it is kept below the reissue
  limit exactly if it had been sent, or its server was known to be down, or g does not divide the number of unsent
  requests of the server from it on, in the order of the buckets, itself included (`DnsScheduler.Base.Relocates`, an
  if-and-only-if in `TryOther` and `BadReply`). With one other good server an unsent request of a server that is up is
  always finished (`DnsScheduler.FinishedBesideAGoodServer` is a run that gets there).

## Model

| member | source | states |
|---|---|---|
| CalcGrammar.SpellIsPrint | CSC4508/NotionCompilationTraduction/Base/yyparse.c:479-539 | spelling the tokens of a tree in front of a rest gives the print of the tree followed by that rest |
| CalcGrammar.UniquelyDecodable | CSC4508/NotionCompilationTraduction/Base/yyparse.c:479-539 | two prints that begin the same token stream are prints of the same tree, with the same rest: the grammar is unambiguous and no print is a prefix of another |
| CalcGrammar.PrintIsInjective | CSC4508/NotionCompilationTraduction/Base/yyparse.c:479-539 | a line is the print of at most one tree |
| CalcGrammar.ViableLengthIs | CSC4508/NotionCompilationTraduction/Base/yyparse.c:479-539 | the longest viable prefix of a line is the one that can be completed to a sentence while one token more cannot |
| YyTables.ActionTable | CSC4508/NotionCompilationTraduction/Base/yyparse.c:479-527 | for every state and symbol the compressed lookup with its default gives the shift, reduction or error of the LALR automaton, and every index stays in range |
| YyTables.EdgesAreTheTables | CSC4508/NotionCompilationTraduction/Base/yyparse.c:479-527 | a pair of states is a shift or goto edge of the tables if and only if it is one of the listed edges |
| YyAutomaton.StackShape | CSC4508/NotionCompilationTraduction/Base/yyparse.c:1258-1291 | a stack whose adjacent states are edges has below each state the states its right-hand side needs |
| YyAutomaton.ReduceDefined | CSC4508/NotionCompilationTraduction/Base/yyparse.c:1196-1291 | a reduction pops no more states and values than there are, and its goto is defined |
| YyAutomaton.ErrorStepIs | CSC4508/NotionCompilationTraduction/Base/yyparse.c:1297-1429 | error recovery pops exactly to the state that shifts the error token, discards one token while recovering, gives up only at the end of input, and never empties the stack |
| YyAutomaton.StepProgress | CSC4508/NotionCompilationTraduction/Base/yyparse.c:1041-1429 | every pass keeps the stack an automaton path with equally many states and values, and gets smaller in a measure of input and stack: the parser terminates |
| LineReader.Completes | CSC4508/NotionCompilationTraduction/Base/yyparse.c:479-539 | whatever has been read can be completed to an expression |
| LineReader.NoFit | CSC4508/NotionCompilationTraduction/Base/yyparse.c:479-539 | a token that does not fit cannot follow in any text that starts with an expression: the error is found at the first token that makes the line wrong |
| LineReader.ReadsViablePrefix | CSC4508/NotionCompilationTraduction/Base/yyparse.c:479-539 | reading stops exactly at the end of the longest viable prefix, and a line is the print of a tree if and only if all of it is read and completes one |
| LineReader.PushYields | CSC4508/NotionCompilationTraduction/Base/yyparse.c:479-539 | one more token is accepted with exactly that token appended to what has been read |
| YyLines.Pushes | CSC4508/NotionCompilationTraduction/Base/yyparse.c:1041-1291 | the automaton, on a stack that represents a partly read line, takes a fitting token by shifts and reductions to the stack of the longer part |
| YyLines.Rejects | CSC4508/NotionCompilationTraduction/Base/yyparse.c:1153-1188 | on a token that does not fit, the automaton reaches the error action without consuming it |
| YyLines.Discards | CSC4508/NotionCompilationTraduction/Base/yyparse.c:1297-1362 | while recovering, all tokens up to the newline are discarded without a new report |
| YyLines.EndsRecovery | CSC4508/NotionCompilationTraduction/Base/yyparse.c:1386-1429 | at the newline the recovering parser reduces the erroneous line and is back at the start of a line |
| YyLines.EndsGoodLine | CSC4508/NotionCompilationTraduction/Base/yyparse.c:1214-1219 | a complete expression and its newline are reduced by rule 3 with RES the value of the tree |
| YyLines.BadLine | CSC4508/NotionCompilationTraduction/Base/yyparse.c:1297-1429 | a malformed line is popped down to state 1, skipped to its own newline, and reported once unless the parser is still silent |
| YyLines.LineRun | CSC4508/NotionCompilationTraduction/Base/yyparse.c:1041-1429 | the whole run over one line, whatever the line is |
| YyLines.LastLineRun | CSC4508/NotionCompilationTraduction/Base/yyparse.c:1297-1361 | a last line without a newline makes the parser fail |
| YyStream.RunsAsReference | CSC4508/NotionCompilationTraduction/Base/yyparse.c:980-1480 | from the start of any line on, the run of the automaton is the reference meaning of what is left |
| YyStream.ParserMeetsReference | CSC4508/NotionCompilationTraduction/Base/yyparse.c:980-1480 | for every token stream, the result, the printed lines and the error count are those of the reference |
| YyStream.AcceptsIff | CSC4508/NotionCompilationTraduction/Base/yyparse.c:1433-1444 | unless the stack is exhausted, the parser returns 0 if and only if the stream is empty or ends in a newline, and 1 otherwise |
| YyStream.HistoryIsIrrelevant | CSC4508/NotionCompilationTraduction/Base/yyparse.c:1297-1429 | what a stream prints and returns does not depend on the errors and the output before it |
| YyStream.LinesCompose | CSC4508/NotionCompilationTraduction/Base/yyparse.c:1297-1429 | the meaning of two streams of whole lines one after the other is the second one's meaning after the first one's |
| StackNeeds.PeakOfPrint | CSC4508/NotionCompilationTraduction/Base/yyparse.c:707-720 | how high the stack gets on the print of a tree |
| StackNeeds.PeakBound | CSC4508/NotionCompilationTraduction/Base/yyparse.c:707-720 | the stack rises by at most one state for each token of a line, well formed or not |
| StackNeeds.ParsesExpression | CSC4508/NotionCompilationTraduction/Base/yyparse.c:976-1480 | the print of any tree and a newline is parsed with exactly one printed result, its value, and no error, unless it is nested beyond the stack limit |
| Yyparse.Parser.YyBackup | CSC4508/NotionCompilationTraduction/Base/yyparse.c:1120-1190 | the action for the current state and lookahead, which reads a token only when the state has no default |
| Yyparse.Parser.YyReduce | CSC4508/NotionCompilationTraduction/Base/yyparse.c:1196-1291 | one reduction in place on the two stacks, equal to the automaton's |
| Yyparse.Parser.YyError | CSC4508/NotionCompilationTraduction/Base/yyparse.c:1297-1429 | one pass of error recovery in place, equal to the automaton's |
| Yyparse.Parser.YyParse | CSC4508/NotionCompilationTraduction/Base/yyparse.c:976-1480 | the loop of yyparse: its result, output and error count are the reference meaning of the input |
| ByteSegments.CutAfterData | CSC4508/ConceptionOS/Cours8_ClientServeur/libevent-2.1.8-stable/buffer.c:290-302 | cutting the empty chunks at the end leaves the bytes and the last data chunk alone |
| ByteSegments.DropBytes | CSC4508/ConceptionOS/Cours8_ClientServeur/libevent-2.1.8-stable/buffer.c:1096-1161 | dropping whole chunks and a part of the next one drops that many bytes |
| Evbuffers.AllocationIsLeastDoubling | CSC4508/ConceptionOS/Cours8_ClientServeur/libevent-2.1.8-stable/buffer.c:156-192 | below half the maximum the size of a chunk is the smallest doubling of the minimum that holds the request |
| Evbuffers.ChainNew | CSC4508/ConceptionOS/Cours8_ClientServeur/libevent-2.1.8-stable/buffer.c:156-192 | a new empty chunk of the doubled size, or none beyond the maximum or without memory |
| Evbuffers.Evbuffer.FreeTrailingEmptyChains | CSC4508/ConceptionOS/Cours8_ClientServeur/libevent-2.1.8-stable/buffer.c:290-302 | frees exactly the empty chunks behind the last data and returns the link where the next chunk goes |
| Evbuffers.Evbuffer.ChainInsert | CSC4508/ConceptionOS/Cours8_ClientServeur/libevent-2.1.8-stable/buffer.c:308-326 | the new chunk follows the data, empty chunks behind it are gone, and all cached fields are right again |
| Evbuffers.Evbuffer.AdvanceLastWithData | CSC4508/ConceptionOS/Cours8_ClientServeur/libevent-2.1.8-stable/buffer.c:703-716 | the link moves on exactly while the next chunk holds data, and stays in a buffer without chunks |
| ByteSegments.AdvanceSufficesIff | CSC4508/ConceptionOS/Cours8_ClientServeur/libevent-2.1.8-stable/buffer.c:703-716 | moving on while the next chunk holds data ends at the last data if and only if no empty chunk lies in between |
| ByteSegments.JoinsIff | CSC4508/ConceptionOS/Cours8_ClientServeur/libevent-2.1.8-stable/buffer.c:1302-1314 | chunks put behind the data of others carry their bytes and the last data chunk with them, and the link moved on from the old last data reaches the new one if and only if no empty chunk comes in between |
| ByteSegments.GapMisplaces | CSC4508/ConceptionOS/Cours8_ClientServeur/libevent-2.1.8-stable/buffer.c:1302-1322 | three bytes of a list with an empty chunk in it: the copied byte lands in front of a moved one |
| ByteSegments.TightJoins | CSC4508/ConceptionOS/Cours8_ClientServeur/libevent-2.1.8-stable/buffer.c:1285-1322 | no part of a list without needless empty chunks breaks either link |
| Evbuffers.Evbuffer.Add | CSC4508/ConceptionOS/Cours8_ClientServeur/libevent-2.1.8-stable/buffer.c:1723-1817 | appends all bytes, or fails and changes nothing; succeeds whenever the size limits allow and memory suffices, or the last data chunk has room behind its data or after moving it; keeps the invariant in place, realigned or in a new chunk |
| Evbuffers.Evbuffer.AddBehind | CSC4508/ConceptionOS/Cours8_ClientServeur/libevent-2.1.8-stable/buffer.c:1774-1817 | what does not fit goes into a chunk of twice the size of the last one up to a limit, or as large as needed |
| Evbuffers.Evbuffer.Prepend | CSC4508/ConceptionOS/Cours8_ClientServeur/libevent-2.1.8-stable/buffer.c:1820-1899 | puts all bytes in front; succeeds whenever memory and the size limits allow; on failure exactly the part that fitted into the first chunk is there |
| Evbuffers.Evbuffer.Drain | CSC4508/ConceptionOS/Cours8_ClientServeur/libevent-2.1.8-stable/buffer.c:1096-1161 | drops the first min(len, size) bytes, or refuses when frozen |
| EvbufferMoves.AddBuffer | CSC4508/ConceptionOS/Cours8_ClientServeur/libevent-2.1.8-stable/buffer.c:961-1004 | dst becomes dst and src, src becomes empty, both stay valid, in every combination of empty buffers |
| EvbufferMoves.PrependBuffer | CSC4508/ConceptionOS/Cours8_ClientServeur/libevent-2.1.8-stable/buffer.c:1050-1093 | dst becomes src and dst, src becomes empty |
| EvbufferMoves.TakeMoved | CSC4508/ConceptionOS/Cours8_ClientServeur/libevent-2.1.8-stable/buffer.c:1300-1318 | the detached chunks become the end of dst with their bytes, and dst is consistent again if and only if they join cleanly |
| EvbufferMoves.RemoveBuffer | CSC4508/ConceptionOS/Cours8_ClientServeur/libevent-2.1.8-stable/buffer.c:1255-1342 | the first bytes of src move behind dst, whole chunks relinked and the rest copied; what is lost is nothing or exactly the bytes to be copied, and nothing when memory suffices or the last data chunk has room for them; src keeps its invariant if and only if the walk does not stop at the last data behind empty chunks only |
| EvbufferPullup.PulledIs | CSC4508/ConceptionOS/Cours8_ClientServeur/libevent-2.1.8-stable/buffer.c:1411-1440 | gathering bytes into one chunk changes neither the contents nor which chunk is the last with data |
| EvbufferPullup.Gather | CSC4508/ConceptionOS/Cours8_ClientServeur/libevent-2.1.8-stable/buffer.c:1411-1422 | copies and unlinks whole chunks, and tells whether the cached chunk and link are among them |
| EvbufferPullup.Relink | CSC4508/ConceptionOS/Cours8_ClientServeur/libevent-2.1.8-stable/buffer.c:1436-1447 | re-establishes last and last_with_datap in each case, also when the last data chunk was swallowed |
| EvbufferPullup.Pullup | CSC4508/ConceptionOS/Cours8_ClientServeur/libevent-2.1.8-stable/buffer.c:1345-1454 | when it succeeds the first bytes are contiguous in the first chunk, exactly as many as asked for unless more were there, and without a new chunk if the first one has the room; contents and length never change; it fails exactly without bytes, beyond the length or without memory |
| EvbufferSearch.PtrSet | CSC4508/ConceptionOS/Cours8_ClientServeur/libevent-2.1.8-stable/buffer.c:2610-2659 | a position inside the buffer, or at its end, set absolutely or moved forward; refused beyond the end or on overflow |
| EvbufferSearch.MemcmpConcat | CSC4508/ConceptionOS/Cours8_ClientServeur/libevent-2.1.8-stable/buffer.c:2666-2699 | comparing piece by piece is comparing the whole |
| EvbufferSearch.PtrMemcmp | CSC4508/ConceptionOS/Cours8_ClientServeur/libevent-2.1.8-stable/buffer.c:2666-2699 | comparison across chunks equals comparison with the flat contents |
| EvbufferSearch.CopyoutFrom | CSC4508/ConceptionOS/Cours8_ClientServeur/libevent-2.1.8-stable/buffer.c:1185-1249 | the bytes from a position on, as many as asked for or there are, without changing the buffer |
| EvbufferSearch.Remove | CSC4508/ConceptionOS/Cours8_ClientServeur/libevent-2.1.8-stable/buffer.c:1165-1176 | takes the first bytes and drops them: what is returned and what is left are the old contents |
| EvbufferSearch.SearchRange | CSC4508/ConceptionOS/Cours8_ClientServeur/libevent-2.1.8-stable/buffer.c:2708-2769 | the smallest position in the range where the pattern occurs in the flat contents and ends within the range; not found exactly when there is none |
| DnsNames.OnlyLoopsAreRefused | CSC4508/ConceptionOS/Cours8_ClientServeur/libevent-2.1.8-stable/evdns.c:960-1013 | a name that can be read with any number of jumps is read, the same, with as many jumps as the packet has octets: the limit refuses only loops |
| DnsNames.BackwardIsReadable | CSC4508/ConceptionOS/Cours8_ClientServeur/libevent-2.1.8-stable/evdns.c:960-1013 | a name whose pointers go strictly back from each run of labels is readable, with no more jumps than the offset it starts at |
| DnsNames.TextSurvivesIff | CSC4508/ConceptionOS/Cours8_ClientServeur/libevent-2.1.8-stable/evdns.c:1600-1663 | the visible labels joined by dots are the name if and only if it is the root or has no empty label |
| DnsNames.WireReads | CSC4508/ConceptionOS/Cours8_ClientServeur/libevent-2.1.8-stable/evdns.c:1600-1663 | what is written for a name reads back as its visible labels, through pointers that go strictly back |
| DnsNames.AddedReads | CSC4508/ConceptionOS/Cours8_ClientServeur/libevent-2.1.8-stable/evdns.c:1600-1663 | reading at each offset remembered by the writer gives the suffix remembered with it |
| DnsNames.WireEnds | CSC4508/ConceptionOS/Cours8_ClientServeur/libevent-2.1.8-stable/evdns.c:1600-1663 | the reader stops behind the last written octet |
| DnsNames.NameWritten | CSC4508/ConceptionOS/Cours8_ClientServeur/libevent-2.1.8-stable/evdns.c:1600-1663 | the invariant of a packet under construction, kept by each name that is put into it |
| DnsCodec.NameParse | CSC4508/ConceptionOS/Cours8_ClientServeur/libevent-2.1.8-stable/evdns.c:960-1013 | terminates on any octets, stays within packet and output, succeeds on exactly the names that end and fit, writes their text and a zero, and moves the index forward to the end of the name |
| DnsCodec.LabelTable.GetPos | CSC4508/ConceptionOS/Cours8_ClientServeur/libevent-2.1.8-stable/evdns.c:1560-1568 | the offset of the first entry with this text, or -1 |
| DnsCodec.LabelTable.Add | CSC4508/ConceptionOS/Cours8_ClientServeur/libevent-2.1.8-stable/evdns.c:1572-1586 | remembers a suffix, up to 128 of them |
| DnsCodec.LongerTextsDoNotMatch | CSC4508/ConceptionOS/Cours8_ClientServeur/libevent-2.1.8-stable/evdns.c:1600-1663 | a name never points into itself: what it has remembered so far is longer than what is left of it |
| DnsCodec.DnsnameToLabels | CSC4508/ConceptionOS/Cours8_ClientServeur/libevent-2.1.8-stable/evdns.c:1600-1663 | writes exactly the compressed form and remembers exactly the suffixes spelled out; the error codes for long labels and lack of room, with exactly the labels in front of that in place; nothing else changes; an octet behind the stated length is needed, and used, only when the name overruns |
| DnsCodec.OverrunIff | CSC4508/ConceptionOS/Cours8_ClientServeur/libevent-2.1.8-stable/evdns.c:1600-1663 | the writer passes the stated length, and by one octet, if and only if the name is written out to its end without a final dot and its labels end with the stated length |
| DnsCodec.OneOctetTooMany | CSC4508/ConceptionOS/Cours8_ClientServeur/libevent-2.1.8-stable/evdns.c:1656-1660 | a name of one octet written at 1498 of 1500 ends at 1501 |
| DnsMessage.NameReadsBack | CSC4508/ConceptionOS/Cours8_ClientServeur/libevent-2.1.8-stable/evdns.c:960-1663 | a proper name put behind any packet is read back exactly, also with more octets behind it |
| DnsMessage.NameSurvivesIff | CSC4508/ConceptionOS/Cours8_ClientServeur/libevent-2.1.8-stable/evdns.c:960-1663 | any written name is read as its visible labels, and as itself if and only if it is the root or has no empty label |
| DnsMessage.TrailingDotIsLost | CSC4508/ConceptionOS/Cours8_ClientServeur/libevent-2.1.8-stable/evdns.c:960-1663 | "a." is read as "a" |
| DnsMessage.QuestionsReadBack | CSC4508/ConceptionOS/Cours8_ClientServeur/libevent-2.1.8-stable/evdns.c:1919-1929 | questions written one after another with one label table are read one after another |
| DnsMessage.RecordsReadBack | CSC4508/ConceptionOS/Cours8_ClientServeur/libevent-2.1.8-stable/evdns.c:1932-1970 | so are records, with names or plain octets as data |
| DnsMessage.ResponseReadsBack | CSC4508/ConceptionOS/Cours8_ClientServeur/libevent-2.1.8-stable/evdns.c:1891-1985 | all four sections of a response are read back, as many questions and records as the counts in its header say, and end with the packet; the header has the id, the flags and the error code |
| DnsMessage.NetworkOrder | CSC4508/ConceptionOS/Cours8_ClientServeur/libevent-2.1.8-stable/evdns.c:1607-1618 | 16-bit numbers are written so that octets compare from the front as the numbers do, and read back |
| DnsMessage.NetworkOrder32 | CSC4508/ConceptionOS/Cours8_ClientServeur/libevent-2.1.8-stable/evdns.c:1607-1618 | so are 32-bit numbers |
| DnsMessage.PointerSays | CSC4508/ConceptionOS/Cours8_ClientServeur/libevent-2.1.8-stable/evdns.c:1622-1630 | a pointer is the number 0xc000 and its offset, and leads there |
| DnsMessage.TargetBits | CSC4508/ConceptionOS/Cours8_ClientServeur/libevent-2.1.8-stable/evdns.c:981-985 | the offset of any pointer is the low fourteen bits of its two octets |
| DnsMessage.HeaderSays | CSC4508/ConceptionOS/Cours8_ClientServeur/libevent-2.1.8-stable/evdns.c:1891-1917 | the header has the id of the request, its flags together with the answer bit and the error code, bit by bit, and the lengths of the four lists |
| DnsRoom.OverrunsIffTooLong | CSC4508/ConceptionOS/Cours8_ClientServeur/libevent-2.1.8-stable/evdns.c:1891-1985 | a response written to its end has passed the buffer if and only if it is one octet longer than the buffer |
| DnsRoom.LongRequestOverruns | CSC4508/ConceptionOS/Cours8_ClientServeur/libevent-2.1.8-stable/evdns.c:1891-1985 | a response of two records whose second name makes the writer pass its 1500 octets |
| DnsRoom.KeptIsDrafted | CSC4508/ConceptionOS/Cours8_ClientServeur/libevent-2.1.8-stable/evdns.c:1891-1985 | what is ever written starts with the header and all whole questions and records, and is the whole response when it fits |
| DnsRoom.WrittenIffDetermined | CSC4508/ConceptionOS/Cours8_ClientServeur/libevent-2.1.8-stable/evdns.c:1891-1985 | an octet of the buffer does not depend on what was in memory if and only if it has been written |
| DnsRoom.OnlyLengthsAreMissing | CSC4508/ConceptionOS/Cours8_ClientServeur/libevent-2.1.8-stable/evdns.c:1932-1970 | up to where the writer stops in a record, exactly the two length octets of a name as data are not written |
| DnsRoom.BadLabelStops | CSC4508/ConceptionOS/Cours8_ClientServeur/libevent-2.1.8-stable/evdns.c:1600-1663 | a response with an answer named by one label of 64 octets stops behind its header |
| DnsServer.AppendQuestions | CSC4508/ConceptionOS/Cours8_ClientServeur/libevent-2.1.8-stable/evdns.c:1919-1929 | the question section in the buffer, or the error of the first name that cannot be written and exactly the octets written up to where it fails |
| DnsServer.AppendNameData | CSC4508/ConceptionOS/Cours8_ClientServeur/libevent-2.1.8-stable/evdns.c:1950-1958 | a name as record data, with its length filled in afterwards; when it fails, the labels in front of the failure and no length |
| DnsServer.AppendRecords | CSC4508/ConceptionOS/Cours8_ClientServeur/libevent-2.1.8-stable/evdns.c:1932-1970 | one record section in the buffer, or exactly the octets written up to where the first record that does not fit fails |
| DnsServer.MarkedSays | CSC4508/ConceptionOS/Cours8_ClientServeur/libevent-2.1.8-stable/evdns.c:1971-1972 | marking a cut response sets the truncated bit and leaves every other field of the header |
| DnsServer.FormatResponse | CSC4508/ConceptionOS/Cours8_ClientServeur/libevent-2.1.8-stable/evdns.c:1891-1985 | the response is the whole message, cut to 512 octets with the truncated bit when it is longer; when something does not fit it is 512 octets, each one fixed: what was written up to there, and what was in memory elsewhere; in every case its header says id, flags, error code, counts and whether it is cut |
| DnsServer.BadLabelSendsMemory | CSC4508/ConceptionOS/Cours8_ClientServeur/libevent-2.1.8-stable/evdns.c:1972-1985 | whatever the memory held, 500 octets of it are sent for that request |
| DnsQuery.RequestDataBuild | CSC4508/ConceptionOS/Cours8_ClientServeur/libevent-2.1.8-stable/evdns.c:1680-1704 | a standard query with one question, in a buffer of exactly the stated length unless the name overruns |
| DnsQuery.RequestLenSuffices | CSC4508/ConceptionOS/Cours8_ClientServeur/libevent-2.1.8-stable/evdns.c:1665-1704 | the space set aside for a query is enough for every name that can be written, and none overruns it |
| DnsQuery.BuildRequest | CSC4508/ConceptionOS/Cours8_ClientServeur/libevent-2.1.8-stable/evdns.c:2747-2800 | the packet of a new request: built exactly for names of at most 255 octets with labels of at most 63, in exactly the space set aside |
| DnsQuery.RequestParse | CSC4508/ConceptionOS/Cours8_ClientServeur/libevent-2.1.8-stable/evdns.c:1216-1303 | accepts exactly the queries whose questions can all be read and that the test for other operations lets pass, and gives id, flags and questions |
| DnsQuery.AnswerIff | CSC4508/ConceptionOS/Cours8_ClientServeur/libevent-2.1.8-stable/evdns.c:1239 | what is refused as an answer is exactly what has the first flag |
| DnsQuery.KeptFlagsAre | CSC4508/ConceptionOS/Cours8_ClientServeur/libevent-2.1.8-stable/evdns.c:1240 | of the flags of a query exactly recursion desired and checking disabled stay |
| DnsQuery.UnsupportedIff | CSC4508/ConceptionOS/Cours8_ClientServeur/libevent-2.1.8-stable/evdns.c:1281 | another operation than a standard query is asked for exactly if one of the four bits of its code is set |
| DnsQuery.NothingIsUnsupported | CSC4508/ConceptionOS/Cours8_ClientServeur/libevent-2.1.8-stable/evdns.c:1239-1281 | the test for other operations lets every query pass, because it sees the flags after they were cut down |
| DnsQuery.QueryIsRead | CSC4508/ConceptionOS/Cours8_ClientServeur/libevent-2.1.8-stable/evdns.c:1216-1704 | the query of the client is read by the server as the same id and question; of the flags exactly recursion desired is set |
| DnsQuery.ResponseQuestionsAreRead | CSC4508/ConceptionOS/Cours8_ClientServeur/libevent-2.1.8-stable/evdns.c:1216-1985 | the loop that reads questions, which request_parse runs on queries only, reads those of a response as the same list |
| DnsQuery.RecordIsRead | CSC4508/ConceptionOS/Cours8_ClientServeur/libevent-2.1.8-stable/evdns.c:1932-1970 | the fields of a record that stands in a packet, each at its offset |
| DnsQuery.ErrorComesThrough | CSC4508/ConceptionOS/Cours8_ClientServeur/libevent-2.1.8-stable/evdns.c:1047-1051 | what the client tests for an error is exactly the error code of the server, unless the response is cut |
| DnsQuery.AnswerMatchesQuery | CSC4508/ConceptionOS/Cours8_ClientServeur/libevent-2.1.8-stable/evdns.c:1034-1985 | the response to a query comes back as an answer with its id, its question, recursion desired and the error code |
| DnsPick.RoundsAreFair | CSC4508/ConceptionOS/Cours8_ClientServeur/libevent-2.1.8-stable/evdns.c:1334-1367 | k rounds over g elements in turn choose each of them exactly k times |
| DnsPick.TurnedAt | CSC4508/ConceptionOS/Cours8_ClientServeur/libevent-2.1.8-stable/evdns.c:1334-1367 | after n turns the element k places on is number n + k of the list, counted around |
| DnsPick.SameRemainder | CSC4508/ConceptionOS/Cours8_ClientServeur/libevent-2.1.8-stable/evdns.c:1334-1367 | two numbers of turns end at the same element if and only if their difference is whole rounds |
| DnsScheduler.Base.NameserverPick | CSC4508/ConceptionOS/Cours8_ClientServeur/libevent-2.1.8-stable/evdns.c:1334-1367 | terminates; picks the next server that is up whenever one is, and the servers that are up rotate by one; otherwise the next server |
| DnsScheduler.Base.PickInTurn | CSC4508/ConceptionOS/Cours8_ClientServeur/libevent-2.1.8-stable/evdns.c:1334-1367 | n choices in a row are the good servers in turn, from the next one on |
| DnsScheduler.Base.PickRounds | CSC4508/ConceptionOS/Cours8_ClientServeur/libevent-2.1.8-stable/evdns.c:1334-1367 | k times g choices with g good servers choose each good server exactly k times and no other server |
| DnsScheduler.Base.SwapNs | CSC4508/ConceptionOS/Cours8_ClientServeur/libevent-2.1.8-stable/evdns.c:524-533 | a request moves to another server and the two loads follow; the old load was positive |
| DnsScheduler.Base.NameserverFailed | CSC4508/ConceptionOS/Cours8_ClientServeur/libevent-2.1.8-stable/evdns.c:557-604 | while another server is good, the unsent requests of a failed server, in the order of the buckets, go to the other good servers in turn; no other request moves |
| DnsScheduler.Base.Find | CSC4508/ConceptionOS/Cours8_ClientServeur/libevent-2.1.8-stable/evdns.c:463-480 | finds a request by id if and only if one in flight has it |
| DnsScheduler.Base.PickId | CSC4508/ConceptionOS/Cours8_ClientServeur/libevent-2.1.8-stable/evdns.c:1318-1329 | draws ids until one is met that no request in flight has; there always is one |
| DnsScheduler.BucketsHoldAll | CSC4508/ConceptionOS/Cours8_ClientServeur/libevent-2.1.8-stable/evdns.c:2721-2734 | the buckets hold as many entries as there are requests in flight |
| DnsScheduler.Base.CountersAreSizes | CSC4508/ConceptionOS/Cours8_ClientServeur/libevent-2.1.8-stable/evdns.c:743-770 | the two global counters are the sizes of the buckets and of the waiting list |
| DnsScheduler.Base.EnterBucket | CSC4508/ConceptionOS/Cours8_ClientServeur/libevent-2.1.8-stable/evdns.c:2721-2734 | a request joins the end of the bucket of its id, and nothing else moves |
| DnsScheduler.Base.LeaveBucket | CSC4508/ConceptionOS/Cours8_ClientServeur/libevent-2.1.8-stable/evdns.c:2683-2717 | a request leaves its bucket, and nothing else moves |
| DnsScheduler.Base.Transmit | CSC4508/ConceptionOS/Cours8_ClientServeur/libevent-2.1.8-stable/evdns.c:2238-2286 | the request stays marked exactly when it was not sent, at a server that takes nothing; a broken server is failed over; other requests leave only it, and only unsent |
| DnsScheduler.Base.TransmitAll | CSC4508/ConceptionOS/Cours8_ClientServeur/libevent-2.1.8-stable/evdns.c:2345-2366 | every marked request is tried once: it has been sent, or is still marked and its server takes nothing or has changed; no other request is sent |
| DnsScheduler.Base.Pump | CSC4508/ConceptionOS/Cours8_ClientServeur/libevent-2.1.8-stable/evdns.c:743-770 | the longest waiting requests go into flight, in order, until the limit, the end of the queue or the lack of servers stops it; each is sent once or still marked; none goes to a server that was down while another is good, and while no server fails they get the servers in turn, and those not sent wait for a server that takes nothing |
| DnsScheduler.Base.PumpOne | CSC4508/ConceptionOS/Cours8_ClientServeur/libevent-2.1.8-stable/evdns.c:743-770 | the head of the queue gets the server whose turn it is, joins its bucket and is sent once, or is still marked and the server takes nothing; it leaves the server only if that fails at once |
| DnsScheduler.Base.RequestNew | CSC4508/ConceptionOS/Cours8_ClientServeur/libevent-2.1.8-stable/evdns.c:2747-2821 | while there is room in flight, an id at once and the server whose turn it is, a good one if there is one, and the turn passes on; without room neither |
| DnsScheduler.Base.NewInTurn | CSC4508/ConceptionOS/Cours8_ClientServeur/libevent-2.1.8-stable/evdns.c:2747-2821 | n new requests in a row get the servers in turn |
| DnsScheduler.Base.Submit | CSC4508/ConceptionOS/Cours8_ClientServeur/libevent-2.1.8-stable/evdns.c:2824-2841 | straight into flight with a server, and sent once, or still marked at that server because it takes nothing; to the end of the queue without, and untouched |
| DnsScheduler.Base.Finished | CSC4508/ConceptionOS/Cours8_ClientServeur/libevent-2.1.8-stable/evdns.c:649-706 | the request leaves its list, and the head of the queue moves up until there is no room, no one waits or there is no server |
| DnsScheduler.Base.Cancel | CSC4508/ConceptionOS/Cours8_ClientServeur/libevent-2.1.8-stable/evdns.c:2845-2877 | the request is in no list afterwards, and no one waits while there is room; no other request in flight is lost, and no other waiting one but into flight |
| DnsScheduler.Base.NameserverUp | CSC4508/ConceptionOS/Cours8_ClientServeur/libevent-2.1.8-stable/evdns.c:617-636 | the server counts as good again with no failures, no other one comes up, and only its probe is taken back, out of every list |
| DnsScheduler.Base.Reissue | CSC4508/ConceptionOS/Cours8_ClientServeur/libevent-2.1.8-stable/evdns.c:715-735 | another server, or the answer that there is none |
| DnsScheduler.Base.AddNameserver | CSC4508/ConceptionOS/Cours8_ClientServeur/libevent-2.1.8-stable/evdns.c:2485-2564 | a new good server behind the head of the list |
| DnsScheduler.Base.SetMaxRequestsInflight | CSC4508/ConceptionOS/Cours8_ClientServeur/libevent-2.1.8-stable/evdns.c:3386-3414 | all requests in flight stand in the new table as if they had entered it in the order of the old one |
| DnsScheduler.Base.TimedOut | CSC4508/ConceptionOS/Cours8_ClientServeur/libevent-2.1.8-stable/evdns.c:2161-2196 | given up, with its server failed, or counted as sent once more or marked, at the next server in turn if it was sent before; the server that was tried is charged with the timeout and taken for dead after too many, and no other is; no other request is lost, in flight or waiting |
| DnsScheduler.Base.SendProbe | CSC4508/ConceptionOS/Cours8_ClientServeur/libevent-2.1.8-stable/evdns.c:2315-2339 | a probe goes into flight to the given server, whatever the limit, and is sent once or still marked because the server takes nothing |
| DnsScheduler.Base.GoodReply | CSC4508/ConceptionOS/Cours8_ClientServeur/libevent-2.1.8-stable/evdns.c:948-956 | the request is finished, no other but the probe of its server is lost, in flight or waiting, and while nothing waits its server is up and every other one as before |
| DnsScheduler.Base.TryOther | CSC4508/ConceptionOS/Cours8_ClientServeur/libevent-2.1.8-stable/evdns.c:892-912 | the server is down, and the request gets another one if and only if `Relocates` holds before: it was sent, or its server was down, or whole rounds of the good servers do not end with the unsent requests from it on |
| DnsScheduler.Base.BadReply | CSC4508/ConceptionOS/Cours8_ClientServeur/libevent-2.1.8-stable/evdns.c:892-912 | the request stays in flight if and only if the reissue limit is not reached and `Relocates` holds before; then it is unsent and marked, at another server, a good one if there is one, and no list changes; otherwise it is in no list; no other request is lost |
| DnsScheduler.FinishedBesideAGoodServer | CSC4508/ConceptionOS/Cours8_ClientServeur/libevent-2.1.8-stable/evdns.c:557-912 | two good servers and an unsent request at one of them: a bad answer finishes the request |
| TokenBuckets.CfgNew | CSC4508/ConceptionOS/Cours8_ClientServeur/libevent-2.1.8-stable/bufferevent_ratelim.c:142-173 | accepts exactly rates from one to the burst within ssize_t |
| TokenBuckets.RefillIsNaiveIff | CSC4508/ConceptionOS/Cours8_ClientServeur/libevent-2.1.8-stable/bufferevent_ratelim.c:75-111 | the overflow-avoiding refill is the minimum of maximum and limit + ticks * rate if and only if the limit was not above the maximum or the wrapped gap is filled |
| TokenBuckets.AboveTheMaximumItGrows | CSC4508/ConceptionOS/Cours8_ClientServeur/libevent-2.1.8-stable/bufferevent_ratelim.c:96-99 | a limit above its maximum that a refill makes larger |
| TokenBuckets.PositiveIff | CSC4508/ConceptionOS/Cours8_ClientServeur/libevent-2.1.8-stable/bufferevent_ratelim.c:96-105 | a positive limit stays positive through a refill if and only if it does not wrap around |
| TokenBuckets.WrapsToTheBottom | CSC4508/ConceptionOS/Cours8_ClientServeur/libevent-2.1.8-stable/bufferevent_ratelim.c:96-105 | the largest limit and one tick give the most negative one |
| TokenBuckets.UpdateThrough | CSC4508/ConceptionOS/Cours8_ClientServeur/libevent-2.1.8-stable/bufferevent_ratelim.c:75-111 | updating at a tick in between changes nothing later, for every value of the bucket, across the wrap of the tick counter, up to INT_MAX ticks |
| TokenBuckets.TokenBucket.Update | CSC4508/ConceptionOS/Cours8_ClientServeur/libevent-2.1.8-stable/bufferevent_ratelim.c:75-111 | the update in place is the refill of both sides, or nothing when no tick has passed or time ran back |
| TokenBuckets.TokenBucket.Init | CSC4508/ConceptionOS/Cours8_ClientServeur/libevent-2.1.8-stable/bufferevent_ratelim.c:51-71 | one tick's worth at first, only clipping on a new configuration |
| RateLimits.Bufferevent.Decrement | CSC4508/ConceptionOS/Cours8_ClientServeur/libevent-2.1.8-stable/bufferevent_ratelim.c:273-346 | after a charge bandwidth suspends the direction exactly when it has no tokens, and the timer is set exactly while something is suspended |
| RateLimits.Bufferevent.Refill | CSC4508/ConceptionOS/Cours8_ClientServeur/libevent-2.1.8-stable/bufferevent_ratelim.c:393-439 | after the timer each direction that was suspended still is exactly when it has no tokens, and then the timer is set again; the state stays in order exactly if the other direction does not wrap around |
| RateLimits.UpdateFitsIff | CSC4508/ConceptionOS/Cours8_ClientServeur/libevent-2.1.8-stable/bufferevent_ratelim.c:114-124 | after an update no direction without tokens goes on, if and only if no unsuspended direction wraps around |
| RateLimits.WithinMaximumNeverWraps | CSC4508/ConceptionOS/Cours8_ClientServeur/libevent-2.1.8-stable/bufferevent_ratelim.c:114-124 | while no limit is above its maximum no update loses a direction, and none gets above |
| RateLimits.WrapForgets | CSC4508/ConceptionOS/Cours8_ClientServeur/libevent-2.1.8-stable/bufferevent_ratelim.c:114-124 | a bucket in order that one tick puts out of order |
| RateLimits.ReachesForgotten | CSC4508/ConceptionOS/Cours8_ClientServeur/libevent-2.1.8-stable/bufferevent_ratelim.c:198-346 | a configuration, a charge of negative size and a question lead to a connection without tokens that is neither suspended nor has a timer |
| RateLimits.Bufferevent.SetRateLimit | CSC4508/ConceptionOS/Cours8_ClientServeur/libevent-2.1.8-stable/bufferevent_ratelim.c:560-629 | a new, the same or no configuration: limits clipped or granted, suspension and timer made to fit |
| RateLimits.Bufferevent.RlimMax | CSC4508/ConceptionOS/Cours8_ClientServeur/libevent-2.1.8-stable/bufferevent_ratelim.c:198-258 | how much may be used now, from the updated bucket or the fixed maximum and the share of the group; a member missed by a group suspension is suspended here; the state stays in order exactly if no unsuspended direction wraps around |
| RateLimits.SharesFit | CSC4508/ConceptionOS/Cours8_ClientServeur/libevent-2.1.8-stable/bufferevent_ratelim.c:244-250 | the share is the largest with which all members together get no more than the group has, unless the smallest share forces more; a suspended group has none |
| RateLimits.EachOnce | CSC4508/ConceptionOS/Cours8_ClientServeur/libevent-2.1.8-stable/bufferevent_ratelim.c:475-486 | the loop from a random member on and then up to it meets each member once |
| RateLimits.Group.SuspendAll | CSC4508/ConceptionOS/Cours8_ClientServeur/libevent-2.1.8-stable/bufferevent_ratelim.c:350-388 | the group is suspended and so is every member whose lock can be had |
| RateLimits.Group.UnsuspendAll | CSC4508/ConceptionOS/Cours8_ClientServeur/libevent-2.1.8-stable/bufferevent_ratelim.c:489-523 | every member whose lock can be had is let go, and the others are remembered as pending |
| RateLimits.Group.Refill | CSC4508/ConceptionOS/Cours8_ClientServeur/libevent-2.1.8-stable/bufferevent_ratelim.c:528-557 | in each direction: if members were still to be let go, or the group was suspended and has the smallest share again, every member whose lock can be had goes on and the others are remembered; otherwise nothing changes |
| RateLimits.Group.Decrement | CSC4508/ConceptionOS/Cours8_ClientServeur/libevent-2.1.8-stable/bufferevent_ratelim.c:298-305 | the group is suspended exactly when it has no tokens; then every member whose lock can be had is held back, and when it was suspended and has tokens again, let go |
| RateLimits.Group.SetMinShare | CSC4508/ConceptionOS/Cours8_ClientServeur/libevent-2.1.8-stable/bufferevent_ratelim.c:703-720 | the smallest share is what was asked for, but at most one tick's rate in either direction |
| RateLimits.Group.SetCfg | CSC4508/ConceptionOS/Cours8_ClientServeur/libevent-2.1.8-stable/bufferevent_ratelim.c:672-700 | limits clipped, shares adjusted |
| RateLimits.Bufferevent.AddToGroup | CSC4508/ConceptionOS/Cours8_ClientServeur/libevent-2.1.8-stable/bufferevent_ratelim.c:736-780 | at the head of the new list and out of the old one, suspended as the new group is |
| RateLimits.Bufferevent.RemoveFromGroup | CSC4508/ConceptionOS/Cours8_ClientServeur/libevent-2.1.8-stable/bufferevent_ratelim.c:789-810 | out of the list, the count follows, and the group holds it back no longer |
| RateLimits.Bufferevent.Charge | CSC4508/ConceptionOS/Cours8_ClientServeur/libevent-2.1.8-stable/bufferevent_ratelim.c:273-346 | connection and group both pay, in that direction only; members whose lock can be had are held back with the group, and every other member of the group stays in order |
| RateBound.WindowBound | CSC4508/ConceptionOS/Cours8_ClientServeur/libevent-2.1.8-stable/bufferevent_ratelim.c:198-258 | in any window the bytes used are at most the maximum and the rate times the ticks of the window, even if the tick counter wraps or an update was refused; a limit that is not negative never becomes negative |
| RateBound.Run | CSC4508/ConceptionOS/Cours8_ClientServeur/libevent-2.1.8-stable/bufferevent_ratelim.c:198-439 | any run of questions, uses and refills of a connection without a group answers every question, uses at most the maximum and the rate times the ticks from first to last in each direction, keeps it in order, and makes no limit negative |
| RateBound.LookedIsUpdated | CSC4508/ConceptionOS/Cours8_ClientServeur/libevent-2.1.8-stable/bufferevent_ratelim.c:114-124 | one side of the bound's bucket is the side of the real bucket after an update |

## Left out

Parser:
- The current `CSC4508/NotionCompilationTraduction/Base/template.bison` has more rules and floating point; the model
  follows the generated `yyparse.c`, which comes from an earlier version.
- Scanning characters (`yylex.c`): a token stream is the input, and it ends at the first code that is not positive.
  Code 256 is reserved and never occurs.
- Overflow of the evaluator's integers, which are unbounded here, and growth of the stacks, which always succeeds;
  `StackNeeds` says how much is needed.
- The text of messages, YYERROR, YYBACKUP and the tracing code, which this grammar does not use.

Buffer:
- Callbacks and their counters, locks, reference counts, and chunks that are pinned, immutable, shared or backed by
  files. Reserving and committing space, line reading, and everything that talks to sockets.
- An allocation succeeds when the parameter `memory` says so and may fail otherwise. Sizes are those of 64-bit
  machines. Results are not cut to int.
- EvbufferMoves.RemoveBuffer: requires that the chunks to be relinked join those of dst (`JoinsCleanly`), because the copy
  behind them would otherwise be an `evbuffer_add` on a buffer that breaks its own invariant; `TakeMoved` shows that the
  condition is exact, and `GapMisplaces` what the copy does. When the link of src goes stale, its contents are right and
  only the link is not.
- The pointer last_with_datap is a value, the first link or the link of a chunk, not an address.

DNS:
- Copies of suffixes for the label table always succeed. With buffers beyond the 14 bits of a pointer the round trip
  is not claimed; the callers use 1500 octets.
- DnsServer.FormatResponse: when a name overruns, the octet behind the 1500 is taken to be writable, because the source
  then writes into memory that is not its own. What the memory holds before is a parameter.
- The client's reading of a reply beyond names, questions and record layout: which addresses it keeps, time to live,
  matching of the question, search domains, /etc/hosts and resolv.conf, getaddrinfo, random upper and lower case.
- Timers, sockets, callbacks to users, clearing the servers and suspending; what the socket answers is a parameter
  or arbitrary. The limit on requests in flight is at most 65534, as the option parser guarantees.
- DnsScheduler.Base.PickId: an id that was drawn in vain is not drawn again; the source's random numbers may repeat, and
  its loop need not end. A free id exists because fewer than 65535 are taken.
- DnsScheduler.Base.GoodReply: says that the server is up afterwards only while no request waits, because those that move
  up at the end may find it dead again.
- A bound on requests in flight by the limit, and uniqueness of ids among them: probes and repeated searches bypass
  both.

Rate limiter:
- Clocks: ticks are parameters. Setting a timer always succeeds. Locks: a group step is atomic, and the members whose
  lock cannot be had are a parameter. Starting and stopping the transport when a connection is suspended.
- Reading and writing share one method with the direction as a parameter, where the source has two.
- The totals of bytes per group, and destroying a group.

Elsewhere in the repository: the course exercises, which are mostly input and output, and the allocator of
`CSC4103/DM`.
