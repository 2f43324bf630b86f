# A verified model of h12tiny

h12tiny is a small HTTP/1 and HTTP/2 client and server. This project models the parts of it that are
state machines or byte codecs and proves what they keep, for every input, every segmentation of the
network and every interleaving. Hyper, Rustls, DNS, timers and sockets appear only as a nondeterministic
environment.

| file | module | what it models |
|---|---|---|
| `Octets.dfy`, `Numbers.dfy` | `Octets`, `Numbers` | searches, splitting, trimming, integer parsing |
| `Numerals.dfy` | `Numerals` | what a numeral is: digits weighted by their places |
| `Cuts.dfy` | `Cuts` | reading until some octets are found: which verdicts are possible, over all ways to cut the stream |
| `BodyFraming.dfy` | `BodyFraming` | what a response body means: a decoder over the whole stream, and the chunked coding as a grammar |
| `ChunkGrammar.dfy` | `ChunkGrammar` | the chunked coding written out as texts, without the decoder's own functions |
| `ResponseBody.dfy` | `ResponseBodies` | the blocking client's incremental body reader |
| `ResponseHead.dfy` | `ResponseHeads` | status line, header fields, choice of body framing |
| `HeadRules.dfy` | `HeadRules` | which texts are status lines, fields and heads, and what they say |
| `FramingRules.dfy` | `FramingRules` | the rules of section 6.3 of RFC 9112, on the texts of the fields |
| `Responses.dfy` | `Responses` | interim responses, the final head, the hand-over to the body |
| `PoolOrigin.dfy` | `Origins` | each critical section of the connection pool, on one origin's values |
| `PoolInvariant.dfy` | `PoolInvariant` | the pool's invariant and its preservation by every step |
| `PoolRuns.dfy` | `PoolRuns` | runs over any number of origins, and what follows for callers |
| `PoolService.dfy` | `PoolService` | who gets a connection in the steps of a reachable pool, and that releases are counted |
| `PoolSteps.dfy` | `PoolSteps` | the whole effect of each step of a reachable pool, and exact expiry |
| `PoolGaps.dfy` | `PoolGaps` | what the pool does not promise: exact conditions, each with a run |
| `Pool.dfy` | `Pools` | the pool's tables, changed in place, proved to take exactly those steps |
| `Racing.dfy` | `Racing` | ordering of resolved addresses, serial dialing, the Happy Eyeballs race |
| `Preface.dfy` | `Preface` | HTTP/2 preface detection and replay |
| `Lifecycle.dfy` | `Lifecycle` | the accept, shutdown and drain loop |
| `Sse.dfy` | `Sse` | server-sent events and keepalives, against the HTML Standard's interpretation |
| `Limits.dfy` | `Limits` | the body limit wrapper and the bounded collector |
| `Requests.dfy` | `Requests` | origin extraction, HTTP/1 normalization, sending again after a stale connection |

The form follows the source. The reader, the pool, the accept loop, the detector, the keepalive stream,
the body wrapper and the client request are classes whose methods change their fields; loops are loops;
pure code is functions. Every method is stated against a function on values, and the promises are proved
of those functions. Automatic induction is switched off on every lemma, so each induction is written out.

## How to read the main results

**Body codec.** `BodyFraming.Body` decodes a whole stream at once, with no buffer and no limits. Reading in
pieces is proved to hand out exactly its data (`ResponseBodies.ResponseBody.Read`), to report an end only at
a proper end, and to report an error only where that decoder fails, where a limit is exceeded, or when the
transport failed; transports count their failures, so no error can be blamed on them falsely.
`ChunkedRoundTrip` and `ChunkedSound` say that the decoder accepts exactly the chunked coding, and
`ChunkGrammar.MessageIff` that this is the coding of texts, with sizes as numerals of base sixteen. Likewise a head is
accepted exactly when its text is one (`HeadRules.HeadIff`), and the body it announces is settled by four rules on its
fields (`FramingRules`), which cover every case. The length limits
are kept apart in two flags: what `fits` is never refused for its length, and what is not `within` is never
accepted; between the two the cut decides (below). A response that is delivered, and a body that is read to its
end, are `within`.

**Pool.** A step is one acquisition of the pool's lock (or one action on a receiver outside it); runs are any
sequences of steps on any origins, with a clock that does not run back. `lost` counts HTTP/1 connections
dropped without giving their slot back: evictions, closed hand-offs, receivers dropped with a connection in
them. `gone` are receivers dropped between the check in `put` and its send. What is said of a reachable pool
holds after every run from the empty one. For each step there is a statement of all it does to such a pool
(`PoolSteps`, `PoolService`), in terms of who holds which connection afterwards.

**Claims that hold only in part**, with the conditions under which they hold:

- Reading is independent of how the stream is cut, but for the limits: a chunk line, trailer line or head that is
  not yet buffered is refused by some cut exactly when it ends past the limit (`Cuts.MayRefuseIff`), is accepted
  by some cut exactly when it ends within one read past it and the limit is not yet reached
  (`Cuts.MayAcceptIff`), and so can go either way exactly between the two (`Cuts.CutDecidesIff`; for a line and a
  head: `ResponseBodies.LineMayGoEitherWay`, `Responses.HeadMayGoEitherWay`). What is missing altogether is judged
  alike by all cuts (`Cuts.MissingIsJudgedAlike`).
- A stream of events survives encoding exactly when its events are clean (no CR in data, no CR or LF in type or
  identifier, no NUL in the identifier), provided that an event that is not clean has data
  (`Sse.SurvivesIffClean`). Without data, an unclean identifier always shows in the decoder's last identifier
  (`Sse.UncleanIdShows`), and a line break in the type shows a message exactly when what follows it is a data
  field (`Sse.BrokenTypeShowsIff`; both happen: `Sse.BrokenTypes`).
- A clean keepalive is invisible on all runs of the wrapper exactly when it carries neither data nor identifier
  (`Sse.InvisibleIffQuiet`).
- The body wrapper keeps its total within its limit exactly when the limit is below `usize::MAX`
  (`Limits.BoundsIff`).
- Stacking wrapper and collector changes no verdict exactly when the body below does not itself fail on a
  limit of its own within the outer one; that failure is answered with 400 in place of 413
  (`Limits.StackedLimitsAgree`; one wrapper in another always gets there: `Limits.LowerLimitIsLost`).
- The idle sweep is unobservable to checkouts (`PoolRuns.SweepUnobservable`). A connection being put can tell
  in exactly two cases: a shared one when the sweep would have emptied the list, and a unique one that no waiter
  takes when the list is full and the sweep would have made room (`PoolGaps.SweepSeenByPut`; runs:
  `SweepSeenInARun`, `SweepSeenByGiveBack`).
- The documentation of `alpn_h2` says that the conversion is atomic
  (`crates/h12tiny-client/src/pool.rs:670-673`); the code takes the lock twice, and the model follows the code. The
  result is that of an atomic conversion exactly when the marker is the same at both locks
  (`PoolGaps.ConversionGranted`; run: `ConversionOvertaken`).
- An HTTP/1 reservation is refused exactly when sockets and lost connections together fill the cap
  (`PoolGaps.RefusedIff`). Lost connections never come back, so each lowers the cap for good
  (`LostLowersTheCap`), and an origin whose cap they fill never opens an HTTP/1 connection again
  (`OutOfSlotsForGood`; run: `OutOfSlotsInARun`).

## Model

| member | source | states |
|---|---|---|
| Octets.Find | crates/h12tiny-client-sync/src/lib.rs:902-908 | the result is the first window equal to the needle, and none exists when there is no result |
| Octets.FindInPrefix | crates/h12tiny-client-sync/src/lib.rs:459-482 | octets that arrive later never move a match already found; a match found later reaches into them |
| Octets.TrimOws | crates/h12tiny-client-sync/src/lib.rs:910-918 | the two loops cut exactly the leading and trailing blanks |
| Octets.TrimmedEnds | crates/h12tiny-client-sync/src/lib.rs:910-918 | trimming cuts blanks at the two ends, all of them, and nothing else |
| Numbers.RenderedParses | crates/h12tiny-client-sync/src/lib.rs:920-926 | a rendered number is read back exactly when it fits the integer type, in either radix |
| Numerals.ParseIff | crates/h12tiny-client-sync/src/lib.rs:920-926 | parsing gives n if and only if the text is a numeral of n, a sum of digits weighted by their places in either case and after at most one plus sign, and n fits the type |
| Numerals.PaddedIff | crates/h12tiny-client-sync/src/lib.rs:883-886 | trimming before parsing accepts exactly numerals between blanks |
| Cuts.MayRefuseIff | crates/h12tiny-client-sync/src/lib.rs:459-482 | some way to cut the stream makes the reader refuse what it looks for, if and only if that ends past the limit and is not yet buffered |
| Cuts.MayAcceptIff | crates/h12tiny-client-sync/src/lib.rs:459-482 | some way to cut the stream makes it accept, if and only if that is buffered, or can be reached by one full read from below the limit |
| Cuts.CutDecidesIff | crates/h12tiny-client-sync/src/lib.rs:768-789 | the cut decides if and only if the end lies within one read past a limit not yet reached |
| Cuts.MissingIsJudgedAlike | crates/h12tiny-client-sync/src/lib.rs:459-482 | what is not in the stream is judged by the stream's length alone, however it is cut |
| BodyFraming.DataSplits | crates/h12tiny-client-sync/src/lib.rs:548-565 | handing out any first piece of the data leaves a state that decodes to the rest |
| BodyFraming.TrailersRoundTrip | crates/h12tiny-client-sync/src/lib.rs:484-505 | every trailer section is consumed whole, leaves what follows it, and fits exactly when its lines and total do |
| BodyFraming.ChunkedRoundTrip | crates/h12tiny-client-sync/src/lib.rs:507-567 | every chunked message, with any extensions and trailers, decodes to its data and leaves exactly what follows |
| BodyFraming.ChunkedSound | crates/h12tiny-client-sync/src/lib.rs:507-567 | whatever decodes completely is a message of the coding in front of the rest, and the data is that message's |
| BodyFraming.TrailersSound | crates/h12tiny-client-sync/src/lib.rs:484-505 | whatever is accepted as trailers is a trailer section, and yields no data |
| ChunkGrammar.ChunkSizeIff | crates/h12tiny-client-sync/src/lib.rs:920-926 | a size line gives n if and only if what stands before the first semicolon is, between blanks, a numeral of base sixteen for n, and n is below 2^64 |
| ChunkGrammar.TrailersIff | crates/h12tiny-client-sync/src/lib.rs:484-505 | a trailer section is lines without CRLF, each with a colon, up to the empty one |
| ChunkGrammar.MessageIff | crates/h12tiny-client-sync/src/lib.rs:507-567 | the messages that are decoded are exactly those spelled so: sizes that spell the length of their data, zero last, then trailers |
| ChunkGrammar.LimitsIff | crates/h12tiny-client-sync/src/lib.rs:484-496 | a message keeps the limits if and only if each of its lines does, with CRLF, and its trailers take at most 65536 octets in all |
| ChunkGrammar.WrittenIsMessage | crates/h12tiny-client-sync/src/lib.rs:507-567 | any non-empty pieces written with hexadecimal sizes are such a message, and its data is the pieces joined |
| ChunkGrammar.WrittenDecodes | crates/h12tiny-client-sync/src/lib.rs:507-567 | any non-empty pieces so written are decoded to the pieces joined, fit the limits, and leave what follows |
| ResponseBodies.ResponseBody.ReadBuffered | crates/h12tiny-client-sync/src/lib.rs:434-442 | the result is the next piece of buffer plus connection; empty only for an empty request or at the end |
| ResponseBodies.ResponseBody.ReadExactBuffered | crates/h12tiny-client-sync/src/lib.rs:444-457 | exactly the requested octets in order, or end of input when the stream is shorter |
| ResponseBodies.ResponseBody.FillLine | crates/h12tiny-client-sync/src/lib.rs:459-482 | the filling loop loses nothing and goes through exactly the reads of a cut, to that cut's verdict |
| ResponseBodies.LineMayGoEitherWay | crates/h12tiny-client-sync/src/lib.rs:459-482 | from an empty buffer a line can be refused if and only if it is longer than 8190 octets, and accepted if and only if it is no longer than 12285 |
| ResponseBodies.ResponseBody.ReadLine | crates/h12tiny-client-sync/src/lib.rs:459-482 | the line before the first CRLF of the stream; the reads made are a cut of the stream and the verdict is exactly the one this cut calls for; the buffer stays below limit plus one read |
| ResponseBodies.ResponseBody.ConsumeTrailers | crates/h12tiny-client-sync/src/lib.rs:484-505 | consumes exactly the trailer section, which then kept the line and trailer limits, or fails as the decoder does |
| ResponseBodies.ResponseBody.SkipSeparator | crates/h12tiny-client-sync/src/lib.rs:521-529 | two octets that are CRLF, or the decoder's own failure there |
| ResponseBodies.ResponseBody.CrossBoundary | crates/h12tiny-client-sync/src/lib.rs:520-548 | crossing a chunk boundary changes nothing in the decoding still ahead, ends inside a chunk or at the end, and passes only lines and trailers that kept the limits |
| ResponseBodies.ResponseBody.ReadChunkData | crates/h12tiny-client-sync/src/lib.rs:550-565 | a non-empty next piece of the chunk, or the decoder's failure when the stream ends inside it |
| ResponseBodies.ResponseBody.ReadChunked | crates/h12tiny-client-sync/src/lib.rs:507-567 | the next piece of the decoding's data; nothing only when the message is complete; what was passed kept the limits |
| ResponseBodies.ResponseBody.ReadCounted | crates/h12tiny-client-sync/src/lib.rs:578-594 | the same for a counted body; an early close is an error, never an end |
| ResponseBodies.ResponseBody.Read | crates/h12tiny-client-sync/src/lib.rs:571-599 | for every mode and buffer size: output is the next piece of the reference decoding, an empty read means a proper end, errors are explained, what was passed kept the limits, the buffer bound holds |
| ResponseBodies.ResponseBody.ReadToEnd | crates/h12tiny-client-sync/src/lib.rs:570-599 | any sequence of non-empty buffers yields a prefix of the decoding on error and all of it on success, with exactly the rest unread and the limits kept |
| ResponseBodies.ReadMessage | crates/h12tiny-client-sync/src/lib.rs:434-567 | a chunked message within the limits, cut in any way, comes out as its data; only a transport failure can prevent it |
| ResponseHeads.ParseHeaderLines | crates/h12tiny-client-sync/src/lib.rs:814-832 | the loop reads the fields in order and fails on the first bad line |
| ResponseHeads.ParseResponseHead | crates/h12tiny-client-sync/src/lib.rs:791-834 | the head is the parse of its lines: status line first, then the fields, or an error |
| ResponseHeads.StatusLineReadBack | crates/h12tiny-client-sync/src/lib.rs:793-812 | every rendered status line, with any UTF-8 reason, is read back |
| ResponseHeads.FieldReadBack | crates/h12tiny-client-sync/src/lib.rs:815-831 | every rendered header field is read back |
| ResponseHeads.HeadReadBack | crates/h12tiny-client-sync/src/lib.rs:791-834 | every rendered head is read back as it was, all fields in order |
| ResponseHeads.ParsedIsHead | crates/h12tiny-client-sync/src/lib.rs:791-834 | whatever is accepted is a canonical head (valid lower-case names, valid trimmed values, status in range) and is read back from its rendering |
| ResponseHeads.HeadEnds | crates/h12tiny-client-sync/src/lib.rs:902-904 | the first empty line behind a rendered head is its own, whatever follows |
| ResponseHeads.ResponseBodyMode | crates/h12tiny-client-sync/src/lib.rs:846-900 | no body for HEAD, 1xx, 204 and 304; chunked alone; equal lengths; until close otherwise; an error for every other combination |
| ResponseHeads.FramingIgnoresOthers | crates/h12tiny-client-sync/src/lib.rs:846-900 | a field of another name, wherever it stands, has no say in the framing |
| ResponseHeads.FramingCombines | crates/h12tiny-client-sync/src/lib.rs:858-864 | two Transfer-Encoding fields mean what one field with both lists means, by section 5.3 of RFC 9110 |
| HeadRules.Utf8Iff | crates/h12tiny-client-sync/src/lib.rs:798-799 | a line passes the check if and only if it is the UTF-8 encoding of some scalar values |
| HeadRules.FieldIff | crates/h12tiny-client-sync/src/lib.rs:823-831 | a line is a field if and only if it is a name of token octets in any case, the first colon, and a value of allowed octets between blanks; the field has that value and the name in lower case |
| HeadRules.StatusIff | crates/h12tiny-client-sync/src/lib.rs:797-812 | a status line gives this version and status if and only if it spells them: version word, blank, a number from 100 to 999, and nothing or a blank and a reason in UTF-8 |
| HeadRules.StripIff | crates/h12tiny-client-sync/src/lib.rs:836-844 | a line ends with one CR or none, and has no other CR |
| HeadRules.HeadIff | crates/h12tiny-client-sync/src/lib.rs:791-834 | a text is this head if and only if its lines, ended by LF or CRLF, are a status line of that status and then a line for each field in order |
| FramingRules.NoBodyRule | crates/h12tiny-client-sync/src/lib.rs:851-857 | HEAD, status 100 to 199, 204 and 304 have no body, whatever the fields |
| FramingRules.UntilCloseRule | crates/h12tiny-client-sync/src/lib.rs:896-899 | no coding and no length: until close |
| FramingRules.LengthRule | crates/h12tiny-client-sync/src/lib.rs:881-898 | lengths without a coding: n octets if and only if every length field is a decimal numeral of n between blanks and n is below 2^64; an error otherwise |
| FramingRules.CodingRule | crates/h12tiny-client-sync/src/lib.rs:858-879 | a coding: chunked if the only one, in any case, is `chunked` and there is no length field; an error otherwise |
| Responses.RestIsSuffix | crates/h12tiny-client-sync/src/lib.rs:737-766 | what is left for the body is an untouched suffix of the stream |
| Responses.RawHeadStep | crates/h12tiny-client-sync/src/lib.rs:741-765 | one head and its terminator are taken off the stream and nothing else |
| Responses.InterimsAreSkipped | crates/h12tiny-client-sync/src/lib.rs:737-766 | after any number of interim responses the answer is the final head's and exactly the octets behind it remain |
| Responses.RenderedHeads | crates/h12tiny-client-sync/src/lib.rs:768-834 | rendered heads are found and parsed, so the previous statement is about all of them |
| Responses.AnnouncedIsAnswered | crates/h12tiny-client-sync/src/lib.rs:737-834 | whatever interim heads are rendered, with whatever reasons, before whatever final head, that head and exactly the octets behind it are the answer |
| Responses.ReadResponseHead | crates/h12tiny-client-sync/src/lib.rs:768-789 | nothing is lost between buffer and connection; the end found is the stream's first; the reads are a cut and the verdict is the one it calls for; the buffer is bounded, and less than one read is left behind the head |
| Responses.HeadMayGoEitherWay | crates/h12tiny-client-sync/src/lib.rs:768-789 | from an empty buffer a head can be refused if and only if it is longer than 65532 octets, and accepted if and only if it is no longer than 69627 |
| Responses.ReadResponse | crates/h12tiny-client-sync/src/lib.rs:737-766 | for every segmentation the response, or the error, is the stream's own answer; on delivery no head, interim or final, exceeded the largest buffer, and the body reader starts on the octets left over, less than one read of them buffered |
| Responses.Exchanged | crates/h12tiny-client-sync/src/lib.rs:737-834 | from first octet to last, for every framing: unless the transport fails the caller gets the final head and what the body it announces decodes to, or that decoder's failure, with the rest unread and the buffer bounded |
| Responses.ExchangedMessage | crates/h12tiny-client-sync/src/lib.rs:507-834 | a chunked message behind a head that announces it comes out as its data, whatever the segmentation |
| Responses.ExchangedCounted | crates/h12tiny-client-sync/src/lib.rs:571-599 | a head with length n yields exactly the first n octets behind it and leaves the rest; a shorter stream is an unexpected end |
| Responses.ExchangedUntilClose | crates/h12tiny-client-sync/src/lib.rs:571-599 | a head with neither coding nor length yields all that follows |
| Responses.ExchangedWithoutBody | crates/h12tiny-client-sync/src/lib.rs:571-599 | where no body is allowed nothing is read and nothing that follows is touched |
| Responses.SwitchingIsRefused | crates/h12tiny-client-sync/src/lib.rs:749-754 | status 101 is refused after any interim responses, whatever follows |
| Responses.Refusals | crates/h12tiny-client-sync/src/lib.rs:737-766 | a stream without an end of head, a head that is none, and a final head with contradictory framing are each refused with their own error |
| PoolInvariant.PopForm | crates/h12tiny-client/src/pool.rs:274-306 | pop takes the topmost live entry, drops what is above it and counts the HTTP/1 connections dropped |
| PoolInvariant.KeepKeeps | crates/h12tiny-client/src/pool.rs:426-440 | the sweep keeps a list ordered, without repetition and with its shared entry at the bottom |
| PoolInvariant.OfferUnique | crates/h12tiny-client/src/pool.rs:323-344 | a unique value reaches the first waiter able to take it and no other, and the queue behind is intact |
| PoolInvariant.OfferShared | crates/h12tiny-client/src/pool.rs:323-344 | a shared value reaches every waiter able to take it and one copy is left |
| PoolInvariant.ReleaseKeeps | crates/h12tiny-client/src/pool.rs:375-388 | releasing a slot that is in hand restores the invariant, and one is counted then |
| PoolInvariant.PutUniqueKeeps | crates/h12tiny-client/src/pool.rs:316-364 | giving back a unique connection keeps the invariant, whether sent, stored or refused |
| PoolInvariant.PutSharedKeeps | crates/h12tiny-client/src/pool.rs:316-364 | the same for a shared connection |
| PoolInvariant.PopKeeps | crates/h12tiny-client/src/pool.rs:604-616 | taking from the idle list moves the connection to the caller and nowhere else |
| PoolInvariant.EstablishKeeps | crates/h12tiny-client/src/pool.rs:159-186 | a reservation keeps the invariant, granted or not |
| PoolInvariant.PoolUniqueKeeps | crates/h12tiny-client/src/pool.rs:211-232 | the guard's slot passes to the handle |
| PoolInvariant.PoolSharedKeeps | crates/h12tiny-client/src/pool.rs:196-210 | pooling an HTTP/2 connection removes its marker and keeps the invariant |
| PoolInvariant.GiveBackKeeps | crates/h12tiny-client/src/pool.rs:501-543 | dropping a handle, open or closed, keeps the invariant |
| PoolInvariant.CheckOutKeeps | crates/h12tiny-client/src/pool.rs:597-630 | a checkout, served or queued, keeps the invariant |
| PoolInvariant.MailKeeps | crates/h12tiny-client/src/pool.rs:577-595 | receiving or losing a hand-off keeps the invariant, a lost one being counted |
| PoolInvariant.GuardDropKeeps | crates/h12tiny-client/src/pool.rs:674-696 | a cancelled establishment, and the first half of the ALPN conversion, keep the invariant |
| PoolInvariant.SweepKeeps | crates/h12tiny-client/src/pool.rs:422-441 | the idle sweep keeps the invariant |
| PoolInvariant.CleanKeeps | crates/h12tiny-client/src/pool.rs:408-420 | dropping cancelled senders keeps the invariant |
| PoolInvariant.StepKeeps | crates/h12tiny-client/src/pool.rs:159-696 | every step the program can take keeps the invariant |
| PoolRuns.RunKeeps | crates/h12tiny-client/src/pool.rs:159-696 | in every state of every interleaving over all origins the invariant holds |
| PoolRuns.SlotConservation | crates/h12tiny-client/src/pool.rs:366-388 | the slot counter equals guards, handles, hand-offs and idle entries plus lost connections; open HTTP/1 sockets never exceed the cap |
| PoolRuns.UniqueOwnership | crates/h12tiny-client/src/pool.rs:188-251 | no HTTP/1 connection is ever in two places of the pool |
| PoolRuns.SingleH2Owner | crates/h12tiny-client/src/pool.rs:159-171 | the marker stands exactly while one HTTP/2 establishment guard is alive |
| PoolRuns.MarkerRemovalWakes | crates/h12tiny-client/src/pool.rs:394-406 | whenever the marker is removed no receiver is left waiting: each has a value or lost its sender |
| PoolRuns.ExpiredTop | crates/h12tiny-client/src/pool.rs:701-706 | an expired newest entry means the whole list is expired |
| PoolRuns.IdleListShape | crates/h12tiny-client/src/pool.rs:349-361 | stored lists are non-empty, within the maximum, ordered by age, with a shared entry only at the bottom |
| PoolRuns.PopSeesLive | crates/h12tiny-client/src/pool.rs:280-305 | a checkout's result, and the live part of what it leaves, depend only on the live part of the list |
| PoolRuns.LiveLater | crates/h12tiny-client/src/pool.rs:426-440 | what a later sweep keeps is the same with or without an earlier one |
| PoolRuns.SweepUnobservable | crates/h12tiny-client/src/pool.rs:422-441 | no sequence of checkouts, now or later, can tell whether the sweep ran |
| PoolService.PutUniqueServes | crates/h12tiny-client/src/pool.rs:316-364 | the waiter that came first of those able to take it gets a unique connection, nobody else does, the queue behind is intact; otherwise it is stored, or refused when full |
| PoolService.PutSharedServes | crates/h12tiny-client/src/pool.rs:316-364 | with nothing idle, every live waiter gets a copy and one is stored |
| PoolService.PutUniquePlaces | crates/h12tiny-client/src/pool.rs:316-364 | after a put a unique connection is in exactly one place, or in none when refused |
| PoolService.GivenBackServes | crates/h12tiny-client/src/pool.rs:501-531 | in every reachable pool a dropped open HTTP/1 handle ends with exactly one waiter (the first able), or else in the idle list, or else closed with its slot free |
| PoolService.PooledSharedServes | crates/h12tiny-client/src/pool.rs:196-210 | in every reachable pool a new HTTP/2 connection reaches all live waiters and is stored, or with a list standing wakes them without it; the caller has it in both cases |
| PoolService.SharedHandleDropped | crates/h12tiny-client/src/pool.rs:501-531 | dropping an HTTP/2 handle changes nothing in the pool |
| PoolService.ReleasesAreCounted | crates/h12tiny-client/src/pool.rs:375-388 | in every run a slot is counted whenever one is released, and the counter drops by exactly one |
| PoolService.RefusalIsCounted | crates/h12tiny-client/src/pool.rs:515-526 | also when put refuses: it leaves the counter alone and a slot is counted |
| PoolSteps.ReceiveServes | crates/h12tiny-client/src/pool.rs:577-595 | in every reachable pool, receiving an open connection makes exactly one handle on it, which alone has it; a closed one makes none, is nowhere, and is lost if unique; a waiting receiver changes nothing and an orphaned one only goes |
| PoolSteps.GivingUpLoses | crates/h12tiny-client/src/pool.rs:650-660 | a receiver that is dropped takes what was sent to it, a unique connection being lost, and changes nothing else |
| PoolSteps.CleaningKeepsListeners | crates/h12tiny-client/src/pool.rs:408-420 | cleaning keeps exactly the waiters that still listen, in order of arrival |
| PoolSteps.ConnectingGrants | crates/h12tiny-client/src/pool.rs:159-186 | a reservation is granted if and only if no marker stands, or a slot is free, and sets that and a guard and nothing else |
| PoolSteps.PooledUniqueServes | crates/h12tiny-client/src/pool.rs:211-232 | a new HTTP/1 connection is the caller's alone, and the guard's slot stays counted |
| PoolSteps.GivenUpWakes | crates/h12tiny-client/src/pool.rs:399-406 | dropping a guard of either kind orphans every queued waiter and nobody else, and gives back the slot or the marker |
| PoolSteps.AlpnReleaseFrees | crates/h12tiny-client/src/pool.rs:674-685 | the first half of the conversion frees one slot and wakes nobody |
| PoolSteps.ClosedHandleDropped | crates/h12tiny-client/src/pool.rs:501-513 | dropping a closed HTTP/1 handle frees its slot, wakes nobody, and leaves the connection nowhere |
| PoolSteps.LiveIff | crates/h12tiny-client/src/pool.rs:701-706 | an idle entry is usable if and only if it is open and has been idle no longer than the timeout |
| PoolSteps.CheckoutServes | crates/h12tiny-client/src/pool.rs:597-630 | a checkout gives the newest usable entry, leaves what is below it and a renewed copy of a shared one; with none, a caller without a waiter is queued behind all others |
| PoolSteps.SweepLeavesLive | crates/h12tiny-client/src/pool.rs:422-441 | the sweep leaves exactly the usable entries in order, removes an emptied list, and loses the unique ones it drops |
| PoolSteps.HandedOutIff | crates/h12tiny-client/src/pool.rs:280-288 | a connection given back at time t and stored is handed out by a checkout at a later time if and only if no more than the timeout has passed |
| PoolGaps.SweepSeenByPut | crates/h12tiny-client/src/pool.rs:316-364 | whether put keeps a connection depends on an earlier sweep if and only if the sweep would have emptied the list (shared) or made room in a full one (unique, no taker) |
| PoolGaps.SweepSeenInARun | crates/h12tiny-client/src/pool.rs:317-319 | a run, with a positive timeout, in which an HTTP/2 connection is stored after the sweep and refused without it |
| PoolGaps.SweepSeenByGiveBack | crates/h12tiny-client/src/pool.rs:351-354 | a run in which an HTTP/1 connection is stored after the sweep and closed without it |
| PoolGaps.ConversionGranted | crates/h12tiny-client/src/pool.rs:674-685 | the ALPN conversion is granted if and only if no marker stands at its second lock, and agrees with an atomic one if and only if the marker is the same at both |
| PoolGaps.ConversionOvertaken | crates/h12tiny-client/src/pool.rs:674-685 | a run in which another establishment takes the marker in between |
| PoolGaps.RefusedIff | crates/h12tiny-client/src/pool.rs:366-373 | an HTTP/1 reservation is refused if and only if sockets and lost connections fill the cap |
| PoolGaps.LostStaysLost | crates/h12tiny-client/src/pool.rs:280-287 | no run ever brings back the slot of a lost connection |
| PoolGaps.LostLowersTheCap | crates/h12tiny-client/src/pool.rs:366-373 | after any run the sockets are at most the cap less what was lost before it |
| PoolGaps.OutOfSlotsForGood | crates/h12tiny-client/src/pool.rs:366-373 | once lost connections fill the cap, no run ever has a socket or grants a reservation for that origin |
| PoolGaps.OutOfSlotsInARun | crates/h12tiny-client/src/pool.rs:604-616 | a run that gets there |
| Pools.Inner.ReserveH1Slot | crates/h12tiny-client/src/pool.rs:366-373 | counts a slot below the cap and refuses at it, for this origin only |
| Pools.Inner.ReleaseH1Slot | crates/h12tiny-client/src/pool.rs:375-388 | gives a slot back and removes a counter that reaches zero |
| Pools.Inner.ServeWaiters | crates/h12tiny-client/src/pool.rs:323-344 | the loop over senders makes exactly the offers of the value model |
| Pools.Inner.GiveBack | crates/h12tiny-client/src/pool.rs:316-364 | `put` on the tables is the value model's, and touches only its origin |
| Pools.Inner.PopIdle | crates/h12tiny-client/src/pool.rs:274-306 | the popping loop is the value model's pop |
| Pools.Inner.RetainListening | crates/h12tiny-client/src/pool.rs:408-420 | keeps exactly the senders whose receiver still listens, in order |
| Pools.Inner.RetainLive | crates/h12tiny-client/src/pool.rs:427-438 | keeps exactly the live entries, in order, and counts the dropped HTTP/1 ones |
| Pools.Inner.Connecting | crates/h12tiny-client/src/pool.rs:159-186 | the tables take the model's step; a guard is granted exactly when no marker stands or a slot is free |
| Pools.Inner.PoolUniqueConn | crates/h12tiny-client/src/pool.rs:211-232 | the tables take the model's step for a new HTTP/1 connection |
| Pools.Inner.PoolSharedConn | crates/h12tiny-client/src/pool.rs:196-232 | the tables take the model's step for a new HTTP/2 connection |
| Pools.Inner.ReleaseForAlpn | crates/h12tiny-client/src/pool.rs:674-685 | the first lock of the ALPN conversion as a step of its own |
| Pools.Inner.DropConnecting | crates/h12tiny-client/src/pool.rs:688-696 | the tables take the model's step for a cancelled establishment |
| Pools.Inner.DropPooled | crates/h12tiny-client/src/pool.rs:501-543 | the tables take the model's step for a dropped handle |
| Pools.Inner.CheckoutIdle | crates/h12tiny-client/src/pool.rs:597-630 | the tables take the model's step and the caller gets what pop gives |
| Pools.Inner.PollWaiter | crates/h12tiny-client/src/pool.rs:577-595 | the tables take the model's step, and the answer is the connection, closed value, no longer wanted or pending, as the channel and the connection stand |
| Pools.Inner.DropWaiter | crates/h12tiny-client/src/pool.rs:650-660 | a dropped receiver takes with it whatever was sent to it |
| Pools.Inner.CleanWaitersOf | crates/h12tiny-client/src/pool.rs:408-420 | the tables take the model's step for cleaning a queue |
| Pools.Inner.ClearExpired | crates/h12tiny-client/src/pool.rs:422-441 | one sweep of the whole table is the model's sweep of every origin |
| Racing.OrderIsFair | crates/h12tiny-client/src/connect.rs:771-791 | the order is a permutation that keeps each family's own order |
| Racing.OrderAlternates | crates/h12tiny-client/src/connect.rs:783-788 | families alternate, IPv6 first, while both last |
| Racing.OrderPositions | crates/h12tiny-client/src/connect.rs:783-789 | in the order of any addresses, IPv6 stands at each even and IPv4 at each odd position while both last, and the larger family takes the rest |
| Racing.InterleaveAddressFamilies | crates/h12tiny-client/src/connect.rs:771-791 | the queues and loops produce that order |
| Racing.DialSerially | crates/h12tiny-client/src/connect.rs:716-724 | gives the first address of the order that connects, having tried it and those before it and no other; failing means all were tried and reports the last error |
| Racing.Race | crates/h12tiny-client/src/connect.rs:726-760 | for every timing it succeeds exactly when serial dialing does, launches a prefix of the order, and has an attempt in flight whenever it waits |
| Racing.ConnectResolvedAddresses | crates/h12tiny-client/src/connect.rs:708-760 | races if and only if there is a timer and both families occur; a host is reached exactly when one of its addresses connects, whichever way is taken |
| Preface.Rewind.PollRead | crates/h12tiny-server/src/conn/auto.rs:84-106 | replayed octets come first, then the transport's; nothing is lost, and it stalls or fails only when the transport does |
| Preface.Rewind.Drain | crates/h12tiny-server/src/conn/auto.rs:84-106 | draining with any buffer sizes yields the whole stream |
| Preface.ReadVersion.Poll | crates/h12tiny-server/src/conn/auto.rs:181-218 | HTTP/2 exactly for a stream starting with the preface; the reads made, over all polls, are those up to the first that is empty, diverges or completes the preface, and no more; at most 24 octets, replayed exactly |
| Preface.ReadVersion.ReadMore | crates/h12tiny-server/src/conn/auto.rs:202-212 | one read either leaves the question open or decides it, and decides it rightly |
| Preface.DecidesOnce | crates/h12tiny-server/src/conn/auto.rs:201-213 | no proper prefix of the reads that decide would have decided |
| Preface.Diverges | crates/h12tiny-server/src/conn/auto.rs:207-212 | a short or differing read rules the preface out whatever follows |
| Preface.DetectAndDrain | crates/h12tiny-server/src/conn/auto.rs:141-218 | any number of suspended polls, a verdict on the first reads that can decide it, and a drain return the original stream; only the transport can prevent it |
| Lifecycle.EventKeeps | crates/h12tiny-server/src/lifecycle.rs:304-393 | every event keeps the invariant: spawned is the disjoint union of active and finished, the limit holds, no second signal |
| Lifecycle.RunsAreSafe | crates/h12tiny-server/src/lifecycle.rs:299-395 | over whole runs, the loop has returned only if every driver has completed |
| Lifecycle.AfterStop | crates/h12tiny-server/src/lifecycle.rs:264-283 | once stopped nothing is spawned or signalled and each loop event shortens the list by one |
| Lifecycle.StopSignalsEachOnce | crates/h12tiny-server/src/lifecycle.rs:333-340 | stopping signals each active driver exactly once and nobody else |
| Lifecycle.PickedIsRun | crates/h12tiny-server/src/lifecycle.rs:413-528 | the events picked by the polling order are always a run, so everything proved of runs holds |
| Lifecycle.TurnedAwayOnlyWhenFull | crates/h12tiny-server/src/lifecycle.rs:349-352 | a connection is turned away only while as many drivers as the limit allows are unfinished |
| Lifecycle.ShutdownWins | crates/h12tiny-server/src/lifecycle.rs:306-308 | from the poll that finds shutdown on, nothing is spawned, whatever else is ready |
| Lifecycle.AcceptedSpawns | crates/h12tiny-server/src/lifecycle.rs:341-384 | an accepted connection is spawned below the limit and turned away at it |
| Lifecycle.AcceptErrorDrains | crates/h12tiny-server/src/lifecycle.rs:341-348 | a failed accept signals every driver, in order, and drains, or returns the error at once when there is none |
| Lifecycle.ShutdownStops | crates/h12tiny-server/src/lifecycle.rs:333-340 | shutdown signals every driver, in order, and goes on until they are done, or returns at once when there is none |
| Lifecycle.DoneIsReaped | crates/h12tiny-server/src/lifecycle.rs:386-391 | a poll that finds completed drivers reaps the first in the list and forgets no other |
| Lifecycle.ReturnsAsStopped | crates/h12tiny-server/src/lifecycle.rs:304-395 | over every run from a stop, the loop returns exactly when its list is empty: normally after a shutdown, with the error after a failed accept |
| Lifecycle.SwapRemoveKeeps | crates/h12tiny-server/src/lifecycle.rs:386-387 | removing an entry forgets that driver and no other |
| Lifecycle.AllReaped | crates/h12tiny-server/src/lifecycle.rs:271-282 | an emptied list means every spawned driver was seen to complete |
| Lifecycle.AcceptLoop.SignalActive | crates/h12tiny-server/src/lifecycle.rs:265-269 | every unused sender is taken and sent on, in order |
| Lifecycle.AcceptLoop.OnShutdown | crates/h12tiny-server/src/lifecycle.rs:333-340 | takes the model's step for the shutdown signal |
| Lifecycle.AcceptLoop.OnAccepted | crates/h12tiny-server/src/lifecycle.rs:349-384 | takes the model's step for an accepted connection, at capacity or not |
| Lifecycle.AcceptLoop.OnDone | crates/h12tiny-server/src/lifecycle.rs:386-391 | takes the model's step for a completed driver |
| Lifecycle.AcceptLoop.OnAcceptError | crates/h12tiny-server/src/lifecycle.rs:264-283 | drains: it signals once and returns only with every driver finished, in whatever order they complete |
| Lifecycle.AcceptLoop.PollEvent | crates/h12tiny-server/src/lifecycle.rs:305-330 | a poll picks shutdown first, then the lowest completed driver, then the listener |
| Lifecycle.AcceptLoop.Serve | crates/h12tiny-server/src/lifecycle.rs:299-395 | through polls and completions in any order, the loop takes exactly the events its polling order picks, which are a run; a return means all drivers are done |
| Sse.PushLines | crates/h12tiny-web/src/lib.rs:1644-1655 | appends each line with its prefix and terminator |
| Sse.EncodeEvent | crates/h12tiny-web/src/lib.rs:1642-1673 | the text is the lines of comments, data, type, identifier and retry, then an empty line |
| Sse.CommentsLead | crates/h12tiny-web/src/lib.rs:1642-1648 | the encoded text begins with one line for each comment, a colon and its text, in order |
| Sse.EventIsTaken | crates/h12tiny-web/src/lib.rs:1642-1673 | a clean event does to a standard decoder exactly what it means |
| Sse.RoundTrip | crates/h12tiny-web/src/lib.rs:1642-1673 | any sequence of clean events is decoded to those events, with identifiers and retry carried over |
| Sse.SurvivesIffClean | crates/h12tiny-web/src/lib.rs:1642-1673 | a stream survives if and only if all its events are clean, when those that are not have data |
| Sse.UncleanIdShows | crates/h12tiny-web/src/lib.rs:1661-1665 | an unclean identifier leaves the decoder with another last identifier than was meant |
| Sse.BrokenTypeShowsIff | crates/h12tiny-web/src/lib.rs:1656-1660 | a line break in the type of an event without data shows a message if and only if what follows it is a data field |
| Sse.BrokenTypes | crates/h12tiny-web/src/lib.rs:1656-1660 | a type for each of the two cases |
| Sse.KeepAliveStream.PollNext | crates/h12tiny-web/src/lib.rs:1810-1836 | upstream wins, the timer is asked only while it is idle, every emission restarts the interval |
| Sse.KeepAliveStream.Run | crates/h12tiny-web/src/lib.rs:1810-1836 | over any polls the loop emits the run of the value model |
| Sse.RunsRelayAll | crates/h12tiny-web/src/lib.rs:1810-1836 | in every run the upstream items come through complete and in order |
| Sse.RunsAreSpaced | crates/h12tiny-web/src/lib.rs:1822-1834 | in every run a keepalive comes only after a full interval without an emission |
| Sse.SpacedIsRun | crates/h12tiny-web/src/lib.rs:1822-1834 | nothing else restricts it: every output so spaced is the output of a run |
| Sse.KeepAlivesAreTransparent | crates/h12tiny-web/src/lib.rs:1810-1836 | keepalives without data and identifier leave the decoded messages unchanged wherever they fall |
| Sse.LoudIsSeen | crates/h12tiny-web/src/lib.rs:1756-1763 | any other clean keepalive changes the decoded messages of some output that the timer allows, for every interval |
| Sse.InvisibleIffQuiet | crates/h12tiny-web/src/lib.rs:1756-1836 | over all runs in which time does not run back, a clean keepalive is invisible if and only if it carries neither data nor identifier |
| Limits.LimitedBody.PollFrame | crates/h12tiny-web/src/lib.rs:344-372 | each poll hands out the next of the wrapper's answers, also after an error |
| Limits.CrossedStaysCrossed | crates/h12tiny-web/src/lib.rs:354-362 | after an overrun no data gets through however long polling goes on |
| Limits.EmitsWithin | crates/h12tiny-web/src/lib.rs:344-372 | the data let through never exceeds what the limit leaves |
| Limits.WrappedAt | crates/h12tiny-web/src/lib.rs:344-372 | the answer to each frame: data as it is while the total, which stops at the largest count, is within the limit, and a limit error with that total afterwards; other frames as they are; failures with their limit forgotten |
| Limits.BoundsIff | crates/h12tiny-web/src/lib.rs:353-366 | the bound holds for every body if and only if the limit is below the largest count |
| Limits.MaximalLimitIsNone | crates/h12tiny-web/src/lib.rs:353-354 | with the largest limit nothing is ever cut off |
| Limits.CollectBytesLimited | crates/h12tiny-util/src/lib.rs:446-479 | the loop computes the collection of the body |
| Limits.CollectMeans | crates/h12tiny-util/src/lib.rs:446-479 | an overrun before the first failure is the limit case, a failure within the limit is that failure, otherwise all data is returned |
| Limits.CollectReports | crates/h12tiny-util/src/lib.rs:446-479 | the count reported is that of all data up to and with the frame that crosses the limit |
| Limits.Answers | crates/h12tiny-web/src/lib.rs:551-565 | an overrun, the collector's or a wrapper's, is answered with 413 and its numbers, any other failure with 400 |
| Limits.WrappedVerdict | crates/h12tiny-web/src/lib.rs:551-565 | collecting the wrapped body gives the direct verdict with failures from below no longer recognised as limits |
| Limits.StackedLimitsAgree | crates/h12tiny-web/src/lib.rs:551-565 | stacking changes no verdict if and only if the body below does not fail on its own limit first |
| Limits.OverrunReported | crates/h12tiny-web/src/lib.rs:354-366 | a wrapper's overrun reaches a collector above it as that wrapper's limit |
| Limits.LowerLimitIsLost | crates/h12tiny-web/src/lib.rs:369-370 | through a second wrapper it no longer does: every overrun of the inner one is answered with 400 |
| Limits.SameBytes | crates/h12tiny-util/src/lib.rs:446-479 | whether bytes are accepted, and which, never depends on the stacking |
| Requests.ClientRequest.ExtractOrigin | crates/h12tiny-client-normalize/src/lib.rs:69-89 | an absolute URI names its origin; a CONNECT authority gets a scheme by its port; anything else is refused unchanged |
| Requests.ClientRequest.SynthesizeHost | crates/h12tiny-client-normalize/src/lib.rs:105-120 | adds `Host` only where there is none |
| Requests.ClientRequest.NormalizeHttp1 | crates/h12tiny-client-normalize/src/lib.rs:92-145 | origin or authority form, and `Host` when asked for |
| Requests.HostReadBack | crates/h12tiny-client-normalize/src/lib.rs:105-161 | host and port are recovered from the synthesized text, also for bracketed addresses |
| Requests.WireNamesTheResource | crates/h12tiny-client-normalize/src/lib.rs:92-135 | the wire form names the resource that the absolute URI named, by section 7.1 of RFC 9110 |
| Requests.AbsoluteMeans | crates/h12tiny-client-normalize/src/lib.rs:69-89 | without an authority a URI is refused; with a scheme it stays; without one it is refused but for CONNECT, which gets the path `/` and https exactly for port 443 |
| Requests.WireForm | crates/h12tiny-client-normalize/src/lib.rs:92-161 | on the wire a CONNECT names the caller's authority and any other request its path, or `/`; `Host` is added only where asked for and absent, with the port unless it is the scheme's own; all else is unchanged |
| Requests.SendAll | crates/h12tiny-client/src/lib.rs:499-567 | the retry loop makes exactly the dispatches of the value model |
| Requests.AtMostOnce | crates/h12tiny-client/src/lib.rs:505-526 | each dispatch but the last was handed back unsent by a reused connection with retrying on; a response is the last dispatch's |
| Requests.FirstStopDecides | crates/h12tiny-client/src/lib.rs:499-567 | the call goes on past exactly the attempts handed back unsent by a reused connection with retrying on; the first other one, at k, decides the answer and the number of dispatches, k or k + 1; unresolved means there is none |
| Requests.SameOnTheWire | crates/h12tiny-client/src/lib.rs:504-523 | all HTTP/1 dispatches of a request are the same request; others differ at most by a `Host` left behind |
| Requests.MoreAttempts | crates/h12tiny-client/src/lib.rs:505-526 | once resolved, no further attempt matters; until then further attempts only extend the dispatches |
| Requests.SubmitRequest | crates/h12tiny-client/src/lib.rs:472-497 | version and URI are checked before anything is sent |
| Requests.RefusedUnsent | crates/h12tiny-client/src/lib.rs:472-497 | an unsupported version, CONNECT over HTTP/1.0 and a URI without an origin are refused with their own errors and nothing sent |
| Requests.SubmittedOnce | crates/h12tiny-client/src/lib.rs:472-567 | for every request, configuration and network both statements hold of the whole call |

## Left out

- Sse.SurvivesIffClean: says nothing of a stream with an unclean event that has no data; whether that shows depends on what its lines happen to spell, which `BrokenTypeShowsIff` settles for one break in a type.
- Liveness of parked HTTP/1 waiters: dropping a closed handle wakes nobody, and a cancelled establishment drops every waiter of its origin; safety and conservation are proved, not service.
- Equality of the slot counter with live sockets: lost connections keep their slot, so it is proved with the count of them.
- Resuming a body after an error: the first error is terminal, since a separator may be consumed before the state is updated.
- The caller's output slice: reads return the octets that the source writes into it.
- The TLS handshake of the accept loop: it runs inside the driver.
- Pools.Inner.ClearExpired: visits the origins in an arbitrary order, which the table's own order also is; the timer that starts it is not modelled.
- Requests.SendAll: takes the outcomes of its attempts as a list and is unresolved when the list ends, which loses nothing by `MoreAttempts`; that the connection layer hands a request back unchanged is taken from its contract.
- Choosing a connection (`connection_for`, `one_connection_for`, `connect_to`): the race between checkout and dial is only present as arbitrary pool steps.
- A disabled pool, and handles that outlive their pool: they have no table to act on.
- A guard turned into a connection of the other kind: excluded by the contract of dialers.
- Strict number grammar: like Rust's integer parsing, a leading plus sign is accepted in sizes, lengths and status.
- Suspended polls of a body in `Limits`: they change nothing. Size hints are not modelled.
- Streams whose items may be errors in the keepalive wrapper; it passes them on like events.
- Serialization of requests, timeouts, TLS, certificates, DNS and sockets.
- Router, extractors, JSON, typed query, WebSocket framing, CORS, builders, debug events and error texts other than the limit's: only easy claims.
- `crates/h12tiny-core`: thin adapters over foreign traits.
