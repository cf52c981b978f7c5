# Verified model of go-api-boot's server, odm and dotenv cores

This project models five components of go-api-boot in Dafny and proves what their callers rely on.

**Dependency injection** (`container.dfy`, `dependency_graph.dfy`, `memoisation.dfy`, `call_log.dfy`,
`builder.dfy`, `typing.dfy`, `variadic.dfy`, `call_order.dfy`, `build_errors.dfy`). The container is a
recursive evaluator that memoises in a map it shares with the builder. Go's stack is a parameter: an endless
recursion ends in `Overflow`, which is Go's stack overflow. A provider body also sees how many calls came
before it, so impure providers are covered; the results that need pure providers say so. The main results:
memoisation cannot be observed, a type resolves exactly when the graph below it is acyclic and complete, a
failure names the first unprovided type in depth-first order, and a whole Build calls exactly the providers
that are needed, each once, in depth-first postorder, within a bound on the number of resolutions. Every
call gets the arguments that plain evaluation gives, and it is known before a Build whether it goes through,
reflection's refusal of variadic calls included, and otherwise with which error and after which calls it
ends.

**gRPC-Web proxy** (`text.dfy`, `headers.dfy`, `base64.dfy`, `framing.dfy`, `trailer_block.dfy`,
`web_request.dfy`, `web_proxy.dfy`, `web_proxy_runs.dfy`, `header_delivery.dfy`). The response writer is a
class that rewrites headers, encodes the body in text mode with a new encoder after every Flush, and ends
the body with the trailers as a frame. The order in which Go ranges over a map is a parameter (`Pick`) of
every run. The main results: for every run of a handler the client reads exactly the bytes written and then
one trailer frame (message framing of gRPC; base64 of section 4 of RFC 4648, padded in several places), it
is settled for every run in both modes which header keys a client finds in the head or reads in the printed
trailers, which it gets twice, which final values arrive and which status it gets, header copying is
independent of the map order exactly when colliding entries agree, and the request's content type comes
back.

**Stream buffering and retry** (`stream_buffer.dfy`, `retry.dfy`). The upload buffer does not depend on how
the bytes are cut into chunks, exactly when the limit is not negative, and every way it can end is told from
the stream. The exponential back-off runs on a token bucket with burst 1 over real time, with 64-bit
wrap-around of the delay written out; every start of an attempt is computed exactly, and the back-off ends
exactly where the delay stops fitting.

**ODM** (`odm.dfy`, `odm_concurrent.dfy`). Save is a count, a clock reading and an upsert. Sequential runs
are characterised by the history of each document, failing counts included; interleaved runs keep
createdOn in every document, and both stamps are told from the run.

**Dotenv** (`dotenv.dfy`). The last valid assignment of a key wins, and loading undoes printing exactly for
printable entries, in whatever environment.

`wrappers.dfy` holds the optional value and the orders of a map's keys that the others share.

Classes carry the fields that the Go types update; each of their methods is proved equal to a function on
values, and the theorems are about these functions. All lemmas state `{:induction false}`, so every
induction is the one written in the proof.

## Where the code does less than one might expect

Each of these is proved, with the exact condition where there is one.

- A `WriteHeader` after the head was sent copies new headers into the live map only, and the trailer step
  then skips them: such keys reach the client nowhere (`HeaderLostIff`, `LateStatusLosesHeader`).
- A header that is set again after the head was written keeps its old values for the client
  (`ValuesArriveIff`, `ChangedValuesAreLost`).
- A "Trailer:" key that is there when the head is prepared is sent twice, in the head and as a trailer
  (`DeliveredTwiceIff`, `TrailerKeySentTwice`).
- The trailer block drops keys that are not tokens and keys without values, and cleans values, so a trailer
  that cannot be printed as it is does not arrive (`BlockRoundTripIff`, `LateValuesArriveIff`).
- A variadic provider or factory is called with a slice where reflection wants one element
  (`BuildAcceptedIff`, `AcceptedBeforehandIff`, `VariadicProviderRejected`).
- A second Build of one builder that gets past the listeners panics, because the interceptors of the first are
  still in the server options (`OnlyOneBuildSucceeds`).
- A negative size limit lets an upload without chunks through but refuses an empty chunk
  (`ChunkingIrrelevantIff`).
- The first delay that does not fit into 63 bits wraps to a negative one, which removes the rate limit, and
  from the 63rd retry on there is never a delay (`BackoffKeptIff`, `NoBaseDelaysIff`, `LateRetriesDoNotWait`).
- A Save whose count fails rewrites createdOn of a stored document (`CreatedOnRewrittenIff`), and so does
  one that missed the document because another was under way (`UpdateMovesStampIff`,
  `OverlappingInserts`).
- A field that the last saved model leaves out keeps its old value, because `$set` does not remove fields
  (`ReadsBackLastModel`).

## Model

| member | source | states |
|---|---|---|
| Container.Injector.Resolve | server/container.go:21-39 | the recursive method with its argument loop leaves exactly the table, call log and answer of the value-level evaluator |
| Container.Injector.InvokeFactory | server/builder.go:331-341 | arguments are resolved left to right, the first failure is returned, otherwise the factory is called once and nothing is memoised for it |
| DependencyGraph.SucceedsIff | server/container.go:21-38 | some stack suffices to evaluate a type iff no dependency path from it repeats a type and every path ends in a provided type, and then the size of the provider table suffices |
| DependencyGraph.FirstStop | server/container.go:22-38 | on any tables and any stack, the answer is determined by the first visit in left-to-right depth-first order that cannot go on |
| DependencyGraph.FailureNamesFirstUnprovided | server/container.go:27-38 | without a cycle below it, a type is found iff all visited types are provided, and otherwise the error names the first unprovided one in depth-first order |
| Memoisation.ResolvedAgrees | server/container.go:21-37 | one memoised resolution from a consistent table answers what plain evaluation answers and keeps the table consistent, also when it fails |
| Memoisation.MemoisationIsInvisible | server/container.go:21-39 | any sequence of resolutions over one container, failed ones included, gives each request the value or failure of plain evaluation on the starting tables |
| Memoisation.ResolvedCalls | server/container.go:22-36 | every call that a resolution makes, even a failing one, gets the arguments that plain evaluation of the parameter types gives |
| Memoisation.FactoriesReceive | server/builder.go:230-236 | in a run of factories every logged call got what plain evaluation gives; on success each factory was called so in order, on failure a type some factory misses is named |
| Memoisation.RegistrationOrderIrrelevant | server/builder.go:230-236 | in any two runs over the same starting tables, whatever the factories, their order, the stacks and the outcomes, calls with the same parameter types get the same arguments |
| Memoisation.ResolveSucceedsIff | server/container.go:21-38 | a container in any state, with providers of any kind, resolves a type given enough stack iff the graph below it, cut at the singleton table, is acyclic and complete |
| Memoisation.ResolveNamesFirstUnprovided | server/container.go:27-38 | the memoising container reports the first unprovided type in depth-first order, for providers of any kind |
| CallLog.ResolvedLogged | server/container.go:22-36 | a resolution, failing or not, keeps the log duplicate-free and topologically ordered, overwrites no singleton, and memoises only types at or below the requested one |
| CallLog.BuildLogged | server/builder.go:230-312 | over all factories: no provider called twice or for a supplied type, every argument supplied or made by an earlier call and equal to the filed instance |
| CallLog.SameInstance | server/builder.go:331-341 | two calls of one run that need the same type are given the same instance |
| CallLog.ResolvedEntries | server/container.go:22-35 | a successful resolution enters resolve once plus the arities of what it newly memoised; a failing one at most once plus the arities of what was still open below it |
| CallLog.BuildEntries | server/builder.go:230-261 | a run of factories enters resolve at most as often as factories and open providers have parameters, exactly as often as the newly memoised ones have when it succeeds |
| Wiring.Builder.Build | server/builder.go:204-328 | port check, listeners, server options, services, controllers, TLS, Temporal dial and activities in this order, each with its error; the memo table and the interceptors stay in the builder |
| Wiring.Builder.Provide | server/builder.go:151-154 | files the value under its own type, replacing what was there |
| Wiring.Builder.ProvideAs | server/builder.go:156-168 | files the value under the interface if it implements it, and ends the process otherwise |
| Wiring.Builder.ProvideFunc | server/builder.go:170-178 | files a function under its result type; anything else ends the process |
| Wiring.Builder.AddRestController | server/builder.go:106-122 | appends a factory whose result implements RestController; anything else ends the process |
| Wiring.RegistrationsReadBack | server/builder.go:151-178 | after any registrations the process has ended iff some ProvideAs does not implement its interface or some ProvideFunc got no function; otherwise every type has the instance supplied last and the provider registered last, or what it had before |
| Wiring.WholeBuild | server/builder.go:204-328 | a whole Build over acyclic tables keeps the call log sound and stays within the entry bound, however it ends |
| Wiring.BuildDoesNotCrash | server/builder.go:204-328 | without a cycle a stack as deep as the provider table never overflows during Build |
| Wiring.BuildSucceedsIff | server/builder.go:204-328 | over acyclic tables no step of Build fails iff ports are set and open, no interceptors are set yet, everything the registered services, controllers and (with Temporal) activities need is provided, and TLS and Temporal come up where asked for; refusals by reflection are not in it |
| Wiring.OnlyOneBuildSucceeds | server/builder.go:219-224 | of all the Builds of one builder only the first that gets past the listeners can succeed; every later one fails at the listeners or panics in grpc.NewServer, and calls nothing |
| BuildErrors.BuildErrorIff | server/builder.go:204-312 | over acyclic tables, for each error exactly when Build returns it: unset ports, failing listeners, interceptors set already, TLS, Temporal, and the first unprovided type in depth-first order of the first service, controller or activity factory that misses one, each after what precedes it; the stack never overflows |
| BuildErrors.BuildCallsExactly | server/builder.go:230-312 | however Build ends, it has called of each group that it got to the factories before the first that misses something, in order, and no other |
| BuildErrors.BuildPanicsIff | server/builder.go:219-224 | of the Builds of one builder one panics in grpc.NewServer iff it gets past the listeners and an earlier one did, or interceptors were set from the start; nothing else of the plan changes |
| Wiring.BuildDelivers | server/builder.go:230-312 | with pure providers every call of a Build, however it ends, gets what plain evaluation gives; a successful one called every service, controller and activity factory so, a failing one names a type that evaluation misses |
| Typing.RegistrationsAreTyped | server/builder.go:151-178 | after any registrations every value is assignable to the type it is filed under and every provider is filed under its result type |
| Typing.BuildIsTyped | server/builder.go:331-341 | from typed tables, however a Build ends, every filed value is assignable to its type and every call got arguments assignable to its parameter types |
| Typing.ReachableIsTyped | server/builder.go:151-178 | after any mix of registrations and Builds on one builder its tables are typed |
| Typing.ReachableBuildIsTyped | server/builder.go:204-341 | so every call of a Build in any reachable builder state is typed |
| Variadic.WithoutVariadicsAccepted | server/builder.go:331-341 | when no registered provider and no planned factory is variadic, reflection accepts every call of any Build over typed tables |
| Variadic.BuildAcceptedIff | server/container.go:25-36 | over acyclic tables all calls of a Build are accepted iff for every variadic function called the instance filed under its slice type is assignable to the element type |
| Variadic.ProviderCalledIff | server/builder.go:230-312 | a successful Build calls the provider of a type iff the type is not supplied and some invoked factory needs it, directly or through providers |
| Variadic.AcceptedBeforehandIff | server/builder.go:331-341 | known before the Build: a successful one is accepted iff every variadic function among the invoked factories and needed providers has a slice type assignable to its element type |
| Variadic.BuildGoesThroughIff | server/builder.go:204-341 | known before the Build, over acyclic tables: no step fails and reflection accepts every call iff the Build is ready in that sense and no function that will be called has a slice type that is not assignable to its element type |
| CallOrder.BuildOrder | server/container.go:25-36 | a successful Build calls, factory by factory, the providers below its parameters in depth-first postorder and then the factory, each provider only where it first comes up and none that was supplied |
| Typing.VariadicProviderRejected | server/container.go:26-34 | a variadic provider whose slice is supplied is called with arguments that reflection rejects |
| Headers.CopyHeader | server/headers.go:108-128 | the two nested loops leave the destination that the visit order determines, skipping case-insensitively and rewriting left to right |
| Headers.SkipKeys | server/headers.go:25-35 | the skip set holds the lower-cased keys |
| Headers.LastVisitWins | server/headers.go:117-127 | a destination key holds the entry visited last among those rewritten to it, or is as before |
| Headers.CopiedKeys | server/headers.go:117-127 | the destination's keys do not depend on the order, whatever collides |
| Headers.CopiedIsOverlay | server/headers.go:117-127 | when colliding entries agree the result is the old destination overridden by every unskipped entry in rewritten form |
| Headers.OrderIndependentIff | server/headers.go:117-127 | the result is the same for all map orders iff entries rewritten to the same key have the same values |
| Headers.InjectiveAgrees | server/headers.go:117-127 | in particular when the rewrite is injective on the unskipped keys |
| WebRequest.InterceptGrpcRequest | server/web_proxy_request.go:10-32 | protocol 2.0, content type made plain, content length removed, text mode and body decoder chosen by the same prefix |
| WebRequest.WebRequestBecomesPlain | server/web_proxy_request.go:15-29 | for every header map whose first content type is "application/grpc-web" or "application/grpc-web-text" plus a suffix: "-text" decides the mode, the handler gets exactly "application/grpc" plus the suffix, no content length, and every other header as it was |
| WebRequest.OtherRequestKeepsType | server/web_proxy_request.go:15-29 | a content type without "application/grpc-web" stays, empty if there was none, and only the content length goes |
| WebRequest.EchoedIff | server/web_proxy_request.go:15-24 | any content type survives both rewrites iff its first "application/grpc" starts the first occurrence of the stripped web type |
| WebRequest.WebTypesComeBack | server/web_proxy_request.go:15-24 | every type starting with application/grpc-web, text or not, becomes plain gRPC with the same suffix and comes back unchanged |
| Base64.RoundTrip | server/web_proxy_response.go:131-133 | decoding the padded encoding of any bytes gives them back |
| Base64.QuantumIsBits | server/web_proxy_response.go:131-133 | the four digits of a quantum spell the bits of its bytes followed by zero bits, and pads stand exactly for missing bytes |
| Base64.DigitsAreAlphabet | server/web_proxy_response.go:132 | the digits are A to Z, a to z, 0 to 9, '+' and '/', as RFC 4648 lists them |
| Base64.StreamIsParts | server/web_proxy_response.go:139-157 | for every interleaving of writes and flushes the emitted text is the one-shot encoding of each flushed part and of the whole triples of the open part |
| Base64.NothingLost | server/web_proxy_response.go:139-157 | the decoded output followed by the pending 0 to 2 bytes is everything written, and nothing is pending after a flush |
| Base64.FlushedLength | server/web_proxy_response.go:147-157 | after a flush N bytes in k parts take a multiple of 4 and between 4 ceil(N/3) and 4(ceil(N/3)+k-1) characters |
| Framing.ParseOfEncode | server/web_proxy_response.go:97-100 | parsing printed frames gives them back when the lengths fit the field |
| Framing.ReadBackIff | server/web_proxy_response.go:97-100 | and only then |
| Framing.EncodeOfParse | server/web_proxy_response.go:97-100 | a body that parses is the print of its frames, so it has one reading |
| Framing.Be32RoundTrip | server/web_proxy_response.go:98 | the 4-byte length is the length modulo 2^32 |
| TrailerBlock.ParseOfBlock | server/web_proxy_response.go:94-96 | reading the printed trailers gives the map restricted to token keys with values, values cleaned |
| TrailerBlock.BlockRoundTripIff | server/web_proxy_response.go:94-96 | it gives exactly the map iff every key is a token with a value and no value has a line break or outer white space |
| TrailerBlock.LineIsText | server/web_proxy_response.go:95-96 | a block is made of lines "key: value" and CRLF, one for each value of a token key |
| TrailerBlock.CleanedIs | server/web_proxy_response.go:96 | a printed value is the value with line breaks as spaces and what is white at either end cut off, no more and no less |
| WebProxy.Base64ResponseWriter.Flush | server/web_proxy_response.go:147-157 | pads the open part, replaces the encoder by an empty one and flushes the wrapped writer |
| WebProxy.WebProxyResponse.PrepareHeaders | server/web_proxy_response.go:67-82 | copies the handler headers into the wrapped map and sets the expose header from the resulting keys |
| WebProxy.WebProxyResponse.Write | server/web_proxy_response.go:43-49 | prepares the headers unless written, marks both flags, passes the bytes on |
| WebProxy.WebProxyResponse.WriteHeader | server/web_proxy_response.go:51-55 | prepares the headers every time and forwards the status |
| WebProxy.WebProxyResponse.Flush | server/web_proxy_response.go:57-63 | does nothing before headers or body were written |
| WebProxy.WebProxyResponse.ExtractTrailingHeaders | server/web_proxy_response.go:104-116 | copies what the wrapped header map does not hold, stripped and lower-cased |
| WebProxy.WebProxyResponse.CopyTrailersToPayload | server/web_proxy_response.go:93-102 | sends the five-byte prefix and the block through the encoder if any, then flushes |
| WebProxy.WebProxyResponse.FinishRequest | server/web_proxy_response.go:84-91 | trailers after a body or headers, otherwise status 200 and the headers |
| WebProxy.ServeHTTP | server/web_proxy.go:32-39 | intercept, handle, finish: the response is that of the finished run in the mode the request chose |
| WebProxyRuns.FinishedBody | server/web_proxy_response.go:84-102 | after any run the client reads the written bytes in order and then the trailer frame, in both modes, with nothing pending |
| WebProxyRuns.FinishedFrames | server/web_proxy_response.go:43-102 | if the handler wrote well-formed data frames, the client parses these and one trailer frame with nothing left over iff the length of the trailers fits its field; with no headers and no body written the body is empty |
| WebProxyRuns.TrailerLengthIff | server/web_proxy_response.go:97-98 | the length field is the block's length iff that is below 2^32 |
| WebProxyRuns.TrailerFrameIsText | server/web_proxy_response.go:97-100 | the trailer frame is the byte 0x80, the block's length in four bytes with the high byte first, and the block |
| WebProxyRuns.WroteBodyIff | server/web_proxy_response.go:43-49 | wroteBody is set iff the handler wrote |
| WebProxyRuns.FairExists | server/headers.go:117-127 | there is an order of all map ranges of the kind that these theorems quantify over |
| WebProxyRuns.TrailerBlockReadBack | server/web_proxy_response.go:93-116 | the client reads back the extracted trailer map, sanitized |
| WebProxyRuns.TextBodyIsStream | server/web_proxy_response.go:43-63 | in text mode body and pending bytes are those of the streaming encoder fed with the run's writes and effective flushes |
| WebProxyRuns.TrailerKeysIff | server/web_proxy_response.go:104-116 | a key is a trailer iff it is the stripped lower-case form of a handler header, not "trailer", that no response header matches |
| WebProxyRuns.PreparedKeysIff | server/web_proxy_response.go:67-82 | a key is in the prepared head iff it was there, is the expose header, or is the canonical stripped form of a handler header other than "trailer" |
| WebProxyRuns.PlainKeyInTrailersIff | server/web_proxy_response.go:104-116 | an unprefixed handler header is a trailer iff no response header matches it or a prefixed unmatched key is stripped to it |
| WebProxyRuns.PreparedMatches | server/web_proxy_response.go:67-76 | an unprefixed header present when the head is prepared is matched there up to case |
| WebProxyRuns.EveryHeaderDelivered | server/web_proxy_response.go:67-116 | if WriteHeader comes at most once and before any Write, the key of every handler header but "trailer" is in the sent head or the trailer map |
| WebProxyRuns.RanHeadIsLive | server/web_proxy_response.go:43-55 | in such a run the head that was sent is the live header map at every moment |
| WebProxyRuns.HeaderReachesClient | server/web_proxy_response.go:84-116 | whenever the sent head is the live map, a handler header with a token key and values is in the head, or is read back from the trailer block with the cleaned values of an entry of that name |
| WebProxyRuns.ContentTypeComesBack | server/web_proxy_response.go:67-75 | the head carries the client's own web content type when the handler echoes the plain one |
| HeaderDelivery.RunTracks | server/web_proxy_response.go:43-63 | a fold over the handler's actions tells, in both modes, when the head is prepared and when it is sent |
| HeaderDelivery.SentHeadIff | server/web_proxy_response.go:67-82 | for every run a name is in the sent head iff the wrapped map or the expose header has it, or the map had it at some preparation before the head was sent |
| HeaderDelivery.SentTrailersIff | server/web_proxy_response.go:93-116 | a name is sent as a trailer iff some entry of the final map is stripped to it and matches nothing that was ever prepared |
| HeaderDelivery.ReadTrailersIff | server/web_proxy_response.go:93-116 | the client reads a trailer of a name iff the name is a token, some entry of the final map goes into the trailers under it, and the one visited last has values; it reads the cleaned values of that one |
| HeaderDelivery.HeaderLostIff | server/web_proxy_response.go:51-116 | for every run, mode and wrapped map, a plain key of the final map is neither in the head nor read in the trailers iff it is not in the head and is no token, or was prepared after the head was sent and no unmatched "Trailer:" key is stripped to it, or the entry trailed under its name has no values |
| HeaderDelivery.PlainHeaderDeliveredIff | server/web_proxy_response.go:51-116 | without "Trailer:" keys, a key is delivered iff it is in the head (there without the handler, or when the head was prepared in time), or was never prepared late, is a token, and has values where it is trailed |
| HeaderDelivery.OwnHeaderDeliveredIff | server/web_proxy_response.go:51-116 | the same for a key whose name no other entry has: in the head, or not prepared late and a token with values |
| HeaderDelivery.LateStatusLosesHeader | server/web_proxy_response.go:51-55 | so any plain key set between two WriteHeader calls is neither in the sent head nor in the trailers |
| HeaderDelivery.DeliveredTwiceIff | server/web_proxy_response.go:67-116 | the client finds a name in the head and reads it in the trailers too iff it is in the head, an unmatched "Trailer:" key of the final map is stripped to it, it is a token, and has values where it is trailed |
| HeaderDelivery.TrailerKeySentTwice | server/web_proxy_response.go:69-75 | so an unmatched "Trailer:" key that the head was prepared from and that is still there is in both header maps, and read twice iff its stripped name is a token with values |
| HeaderDelivery.DeclaredTrailerSentTwice | server/web_proxy_response.go:69-75 | as in every run that sets one such header and writes the head |
| HeaderDelivery.ValuesArriveIff | server/web_proxy_response.go:67-116 | for every run the final values of a header arrive iff the head was prepared in time from the same values, or it was never prepared from the key, nothing matches it, and key and values can be printed as they are, or the wrapped map had the same values left under such a key |
| HeaderDelivery.OnTimeValuesArriveIff | server/web_proxy_response.go:67-116 | if WriteHeader comes at most once and before any Write, final values arrive iff the key had them when the head was prepared, or was not there and can be printed as it is |
| HeaderDelivery.LateValuesArriveIff | server/web_proxy_response.go:93-116 | a plain header first set after the head was written arrives iff it is a token, has values, and no value has a line break or outer white space |
| HeaderDelivery.ChangedValuesAreLost | server/web_proxy_response.go:51-116 | the values of a header set again after the head was written are in neither place |
| HeaderDelivery.ExposeListsHeadIff | server/web_proxy_response.go:76-81 | the expose header reads as the head's keys, each once, and grpc-status and grpc-message, iff no key has ", " in it |
| HeaderDelivery.EchoedTypeReachesClient | server/web_proxy.go:32-39 | in the mode that the request chose, a handler that answers with the content type of the request as it got it gives the client a head with the type the client asked with |
| HeaderDelivery.EchoingHandler | server/web_proxy.go:32-39 | as the handler that copies the content type and writes the head does, for every web type and status |
| HeaderDelivery.StatusIs | server/web_proxy_response.go:51-63 | for every run in either mode the client gets the status of the first WriteHeader, unless a Write or Flush sent the head before it; then, and without a WriteHeader, 200 |
| HeaderDelivery.FlushesAre | server/web_proxy_response.go:57-63 | for every run the wrapped writer is flushed once for each Flush after headers or body were written, and once at the end |
| Text.CanonicalIff | server/web_proxy_response.go:74 | the canonical form of a token key is the one with the same letters that are capital exactly at the front and after a dash |
| Text.CasesAreAscii | server/headers.go:32 | lowering maps A to Z to a to z, letter by letter, and leaves all other ASCII characters alone |
| Text.TokenBytesAreVisible | server/web_proxy_response.go:96 | the bytes of a token are the visible ASCII characters other than the delimiters that RFC 9110 lists |
| StreamBuffer.BufferGrpcStream | server/util.go:60-108 | the loop with its 512-byte head array returns what the value-level fold gives, including every error exit |
| StreamBuffer.ReadingHolds | server/util.go:73-101 | while reading, the buffer is everything received and never exceeds the limit, and the head is its first 512 bytes |
| StreamBuffer.BufferedIsUpload | server/util.go:60-108 | without error or cancel the outcome is a function of the concatenated bytes: too large, wrong type, or all of them with the type of their first 512 |
| StreamBuffer.OutcomeIs | server/util.go:73-107 | for every stream and setting the first obstacle decides: in each pass a cancel, then a receive error, then the size of all chunks so far; without one the type of the first 512 bytes does |
| StreamBuffer.ReceivedIff | server/util.go:73-108 | an upload is received iff there was no cancel and no receive error, it fits, and its type is acceptable |
| StreamBuffer.ChunkingIrrelevantIff | server/util.go:86-90 | the cut into chunks is irrelevant iff the limit is not negative |
| Retry.RetryWithExponentialBackoff | server/util.go:18-40 | attempts start when the bucket allows, all but the last fail, at most maxRetries run, and each result says why the loop ended |
| Retry.DelayDoublesIff | server/util.go:33 | the 64-bit delay is the doubled base delay iff that is below 2^63 |
| Retry.Gap | server/util.go:22-33 | the gap between failing attempts is the larger of the time the call took and the doubled delay less that time |
| Retry.GapBounds | server/util.go:22-33 | the gap is at least baseDelay 2^k after k earlier failures however long the call takes, and baseDelay 2^(k+1) when it takes no time |
| Retry.GapBoundReachedIff | server/util.go:22-33 | the lower bound is reached iff the call takes exactly the previous delay |
| Retry.InstantSpan | server/util.go:22-36 | n+1 instantly failing attempts span baseDelay (2^(n+1) - 2) |
| Retry.StartIs | server/util.go:18-36 | when every attempt starts, for every base delay and any wrapping of the delays: the first at once, each later one after all calls before it and all waits for what was missing of a token |
| Retry.DelayIsWrapped | server/util.go:33 | shift and product wrap to what one wrap-around of the doubled delay gives |
| Retry.FirstOverflowIsNegative | server/util.go:33 | the first delay that does not fit into 63 bits is negative |
| Retry.BackoffKeptIff | server/util.go:22-33 | while the delays so far fit and the call is quicker than the delay before it, the gap bound holds iff the next delay fits |
| Retry.NoWaitIff | server/util.go:22-33 | while the delays so far fit, the next attempt starts without a wait iff the call took at least the delay before it or the next delay does not fit |
| Retry.NoBaseDelaysIff | server/util.go:33 | no base delay leaves a delay after n doublings iff n is at least 63 |
| Retry.LateRetriesDoNotWait | server/util.go:33 | from the 63rd retry on attempts follow at once; the delay is 0, or once the smallest 64-bit number for an odd base delay |
| Odm.OdmCollection.Save | odm/odm_collection.go:48-71 | conversion failure and update failure leave the store; otherwise the stamped document is laid over the stored one |
| Odm.OdmCollection.FindOneByID | odm/odm_collection.go:73-91 | finds exactly the document of that id |
| Odm.OdmCollection.DeleteByID | odm/odm_collection.go:117-130 | removes exactly the document of that id |
| Odm.StoreReflectsHistory | odm/odm_collection.go:48-71 | whichever counts fail, a document is stored iff saved since its last delete; of those saves the first and those with a failing count set createdOn, the others updatedOn, and each stamp is the time of the last that sets it; other fields are the models laid over each other |
| Odm.StampsOfCalmHistory | odm/odm_collection.go:56-61 | when counts succeed createdOn is the first save since insertion and updatedOn exists from the second on and is the last |
| Odm.CreatedBeforeUpdated | odm/odm_collection.go:56-61 | with a monotone clock createdOn is not after updatedOn when the last save's count succeeded, and not before it when it failed |
| Odm.CreatedOnKept | odm/odm_collection.go:57-61 | after any run, a save of a stored document keeps its createdOn, or sets it to its own time when its count fails |
| Odm.ReadsBackLastModel | odm/odm_collection.go:63-68 | the last model's fields are read back, and nothing else iff no earlier model had a field the last one leaves out |
| Odm.AfterKeyed | odm/odm_collection.go:55 | documents stay under their own ids |
| Odm.CreatedOnRewrittenIff | odm/odm_collection.go:56-61 | so such a save rewrites createdOn iff its count fails and it reads another time |
| OdmConcurrent.AloneIsSave | odm/odm_collection.go:48-71 | the four steps run without interruption are the sequential save |
| OdmConcurrent.RunSafe | odm/odm_collection.go:48-69 | in every interleaving, with failing counts and updates, every document carries createdOn and a save that saw its document still has it |
| OdmConcurrent.SettledForGood | odm/odm_collection.go:56-68 | once stored with no save under way that missed it, a document keeps its createdOn in every interleaving without failing counts |
| OdmConcurrent.SavesCarryReadings | odm/odm_collection.go:56-61 | in every interleaving a save under way carries its clock reading as createdOn iff it had missed its document, and as updatedOn iff it had seen it |
| OdmConcurrent.StampIsLastWrite | odm/odm_collection.go:56-68 | in every interleaving, failing counts and updates included, createdOn is the reading of the last successful update by a save that had missed the document, updatedOn that of the last one that had seen it, each as at the start without one |
| OdmConcurrent.UpdateMovesStampIff | odm/odm_collection.go:56-68 | after any run, an update changes createdOn iff its save had missed the document and read another time, and updatedOn iff it had seen it and read another time |
| OdmConcurrent.OverlappingInserts | odm/odm_collection.go:56-68 | two overlapping first saves leave the later reading as createdOn and no updatedOn |
| Dotenv.LoadEnvFromString | dotenv/load_env.go:33-51 | the line loop leaves the environment that the lines determine in order |
| Dotenv.LoadEnv | dotenv/load_env.go:18-30 | files are loaded in order up to the first unreadable one |
| Dotenv.FilesLoadUpToUnreadable | dotenv/load_env.go:18-30 | loading succeeds iff every file can be read, and loads the lines of all files before the first that cannot, as of one file |
| Dotenv.LineAssigns | dotenv/load_env.go:41-47 | splitting at every '=' and joining again assigns the trimmed text after the first '=' to the trimmed text before it, or nothing |
| Text.TrimIs | dotenv/load_env.go:42-45 | trimming takes away white space, only that, and all of it at either end |
| Dotenv.SpacesAreUnicode | dotenv/load_env.go:42-45 | white space is the code points that Unicode lists as such |
| Dotenv.LastAssignmentWins | dotenv/load_env.go:35-48 | the last valid line for a key decides its value |
| Dotenv.PrintLoadIff | dotenv/load_env.go:33-51 | loading a printed environment gives it back iff every entry is printable: valid trimmed key not starting with '#', trimmed one-line value |
| Dotenv.PrintLoadAnywhereIff | dotenv/load_env.go:33-51 | loading a printed environment lays it over every environment a process may have iff every entry is printable |

## Left out

- Listeners, TLS, the HTTP mux, CORS, static files, the Temporal worker and `BootServer.Serve`: foreign calls; their outcomes are parameters of Build.
- Option setters of the builder, `listGRPCResources`, `keyTrim`, and the other collection queries: they would only add easy members.
- Typing.BuildIsTyped: does not model functions without results, nil arguments or panicking bodies; a call that reflection rejects is in the log, and what the log holds after it is not a run of the program.
- Variadic.AcceptedBeforehandIff: takes it that what is filed under a slice type has exactly that type, as Go's rules give for types that are no interfaces; `BuildAcceptedIff` does without.
- Wiring.Builder.Build: does not model what `Routes` or the register callbacks do with the built values.
- Headers.CopyHeader: does not model that source and destination share the value slices.
- Text.Lower: ASCII only; Go lowers other letters too, which no header key may contain.
- TrailerBlock.Block: does not model the sort of the keys, because every order of the lines reads back the same.
- WebProxy.ResponseWriter: does not model failing writes, informational (1xx) statuses, or what the server's own print of the head drops or cleans; the head is the map that was handed to it.
- WebRequest.InterceptGrpcRequest: does not model decoding of the request body; only the choice of the decoder.
- HeaderDelivery.ValuesArriveIff: is about keys whose name no other entry of the final map and of the prepared maps has, because Go's map order decides between such entries, and not about the expose header, which the proxy overwrites.
- StreamBuffer.BufferGrpcStream: MIME detection is a function parameter, and a failing buffer write cannot happen.
- Retry.RetryWithExponentialBackoff: does not model context deadlines; whether a wait is cut short is a parameter per wait. Float rounding of the bucket is not modelled.
- Odm.OdmCollection: BSON encoding, `omitempty` and decoding into structs are the map of fields that conversion gives; a find by filter may return any fitting document.
- Odm.StoreReflectsHistory: models that carry their own createdOn or updatedOn are excluded, because their fields overwrite the stamps.
- OdmConcurrent.StampIsLastWrite: models that carry the stamp in question themselves are excluded here too.
- OdmConcurrent.Step: has no deletes; a delete between count and upsert lets an updated document be inserted without createdOn.
- Dotenv.LoadEnv: the search for a default `.env` file is a file-system question.
