# mechanics-core, modelled in Dafny

mechanics-core runs user scripts on a pool of worker threads. Each worker owns a script runtime with
an event loop; scripts reach the outside through built-in modules such as `mechanics:mime` and the
URL classes, and through configured HTTP endpoints. This project models the parts of it that carry
the hard promises and proves them for all inputs, all runs and all interleavings:

- **MIME** (`Text`, `QuotedPrintable`, `Base64`, `EncodedWords`, `Folding`, `Headers`, `Multipart`,
  `MimeTree`, `Boundary`, `ContentType`, `Compose`, `RoundTrip`, `Freshness`, `Collision`, `Presentation`,
  `AddedHeaders`, `Leaves`, `Accepted`): the composer and the parser of message trees, layer by layer, up to `parse(compose(m))`.
- **Event loop** (`EventLoop`, `LoopSafety`, `LoopRuns`, `LoopWaits`, `LoopCalls`, `Executor`): the four job queues,
  the futures in flight, the deadline, and what every run of the loop keeps.
- **Runtime** (`Runtime`): one job on a runtime, its early reply, and the separation of jobs.
- **Pool** (`Delivery`, `Workers`, `Restarts`): delivery of jobs and replies, the worker map under the
  supervisor, and the restart limiter, as step machines whose steps interleave freely.
- **Retry** (`Retry`): the endpoint retry loop under one deadline.
- **Search parameters** (`FormUrlencoded`, `SearchParams`): parameters backed by a list or by the query
  of a URL.

## How the model reads

A Rust `String` or `Vec<u8>` is a Dafny `string` with one char per byte, so a text is its UTF-8 bytes;
`Utf8` is the type of well-formed ones, and trimming knows the Unicode spaces by their bytes. Instants
and durations are nanosecond counts. Every loop of the source is a method proved equal to a
specification function, objects that the source updates in place are classes, and the theorems are
lemmas about the specification functions. What the source takes from outside comes in as parameters: a
`World` says what a called job or a transport does, a `Turn` what happens around one turn of the loop, a
`Job` what a script does. Threads are modelled as steps that any interleaving may take; a step is one
operation on a channel, a lock-protected map, a flag or the limiter.

Where comments and code disagree, the code is followed:

- The comment at `src/internal/runtime.rs:464-467` calls an end without error and without reply a
  contract bug. It is an ordinary outcome: `Runtime.NoMainResultMeans` says exactly when it occurs and
  `Runtime.NoMainResultHappens` gives a job for which it does.
- A generated boundary is checked against bodies only, not against the delimiters of nested parts.
  `Collision.ComesBackExactly` says exactly which composed messages come back, `Collision.RoundTripExactly`
  which of those with boundaries in no body parse, and `Accepted.WrappedMultipartFails` gives a family
  that does not.
- `QueueSnapshot` leaves the async jobs out, and so does `EventLoop.SnapshotOf`.
- `header_value` reads the last header of a name and `set_header` writes the first;
  `Headers.SetThenGet` says when the two agree.

## Model

| member | source | states |
|---|---|---|
| QuotedPrintable.QpEncode | src/internal/runtime/builtins/mime.rs:298-320 | The encoding loop with its line counter computes the specified encoding, about which the round trips and the line bound are proved. |
| QuotedPrintable.PushToken | src/internal/runtime/builtins/mime.rs:289-296 | A token that would pass column 75 goes behind a soft break and the column restarts at the token; otherwise it is appended and the column advances. |
| QuotedPrintable.QpDecode | src/internal/runtime/builtins/mime.rs:322-359 | The decoding loop, with and without the underscore rule of encoded words and with its error on a bad escape, computes the specified decoding. |
| QuotedPrintable.RoundTrip | src/internal/runtime/builtins/mime.rs:298-359 | Decoding the encoding of any bytes gives those bytes. |
| QuotedPrintable.NormalizedRoundTrip | src/internal/runtime/builtins/mime.rs:298-359 | Decoding the LF-normalised encoding gives the bytes with each CRLF pair as LF, lone CR and LF untouched. |
| QuotedPrintable.LineBound | src/internal/runtime/builtins/mime.rs:289-320 | No line of an encoding is longer than 76 characters. |
| QuotedPrintable.SoftBreaksLate | src/internal/runtime/builtins/mime.rs:289-320 | A line ends in a soft break only if it is full: it then has 74 characters or more. |
| QuotedPrintable.PrintableStays | src/internal/runtime/builtins/mime.rs:298-320 | A line of printable ASCII without equals signs that fits is written as it is. |
| QuotedPrintable.LinesEncodeApart | src/internal/runtime/builtins/mime.rs:298-320 | Lines ended by CRLF are encoded one by one. |
| QuotedPrintable.HexPairsExactly | src/internal/runtime/builtins/mime.rs:273-287 | Two characters name a byte exactly if they are its hexadecimal digits, in either case. |
| QuotedPrintable.LiteralLine | src/internal/runtime/builtins/mime.rs:298-320 | A line of an encoding without an equals sign stands as it is in the encoded bytes. |
| QuotedPrintable.CutDecodesToLess | src/internal/runtime/builtins/mime.rs:322-359 | A text cut at the end of a line does not decode, or decodes to fewer bytes than the whole. |
| Base64.WrapAsciiLine | src/internal/runtime/builtins/mime.rs:245-257 | The wrapping loop breaks before every character that would pass the width, as specified. |
| Base64.CodecRoundTrip | src/internal/runtime/builtins/mime.rs:259-271 | The codec of section 4 of RFC 4648 decodes what it encodes, for every length of input. |
| Base64.RoundTrip | src/internal/runtime/builtins/mime.rs:259-271 | Liberal decoding inverts wrapped encoding, before and after LF normalisation. |
| Base64.DecodeIsStrict | src/internal/runtime/builtins/mime.rs:263-271 | The decoder accepts only text that encoding its result gives. |
| Base64.KnownTexts | src/internal/runtime/builtins/mime.rs:259-261 | The test vectors of section 10 of RFC 4648 for one, two and three bytes. |
| Base64.LineBound | src/internal/runtime/builtins/mime.rs:245-261 | No line of a wrapped body is longer than 76 characters. |
| Base64.LinesAreFull | src/internal/runtime/builtins/mime.rs:245-261 | Every line of a wrapped body but the last has exactly 76 characters. |
| Base64.BodyChars | src/internal/runtime/builtins/mime.rs:245-261 | A wrapped body holds only alphabet characters and line breaks. |
| EncodedWords.QEncodeHeader | src/internal/runtime/builtins/mime.rs:361-379 | The Q-encoding loop computes the specified encoded word. |
| EncodedWords.WordFoundExactly | src/internal/runtime/builtins/mime.rs:389-427 | The search succeeds exactly if somewhere an opener is followed by two more question marks and a closing mark, and no such place opens before the word found. |
| EncodedWords.DecodeEncodedWords | src/internal/runtime/builtins/mime.rs:389-427 | The decoding loop over a header value computes the specified decoding, with its errors. |
| EncodedWords.RoundTrip | src/internal/runtime/builtins/mime.rs:361-427 | Decoding the Q encoding of any string gives the string. |
| EncodedWords.WordsDecode | src/internal/runtime/builtins/mime.rs:389-427 | A word in base64 or Q, in any case and under either name of the charset, is replaced by its text wherever it stands, and decoding goes on behind it. |
| EncodedWords.OtherWordsFail | src/internal/runtime/builtins/mime.rs:389-427 | A word of another charset or encoding is an error, whatever it holds. |
| EncodedWords.QWordStays | src/internal/runtime/builtins/mime.rs:361-379 | Letters, digits and five signs stand for themselves in a Q word. |
| EncodedWords.DecodesToItself | src/internal/runtime/builtins/mime.rs:389-427 | A value decodes to itself exactly if it holds no complete encoded word, said by the places of its marks. |
| Folding.FoldHeaderLine | src/internal/runtime/builtins/mime.rs:429-466 | The folding loop over words computes the specified physical lines. |
| Folding.LineBound | src/internal/runtime/builtins/mime.rs:429-466 | A folded line exceeds 78 characters, or 79 for a continuation, only if it is a single word. |
| Folding.FoldsOnlyWhenNeeded | src/internal/runtime/builtins/mime.rs:429-466 | A header is folded only where the next word would have passed column 78. |
| Folding.UnfoldExact | src/internal/runtime/builtins/mime.rs:429-466 | An ASCII value is read back from its folded lines exactly if it is trimmed and no fold falls beside further whitespace; what is read back is never longer. |
| Folding.SingleSpaced | src/internal/runtime/builtins/mime.rs:429-466 | Words separated by single spaces always meet that condition. |
| Folding.FoldedChars | src/internal/runtime/builtins/mime.rs:429-466 | Folding brings in no characters but the indents. |
| Headers.PutHeader | src/internal/runtime/builtins/mime.rs:81-93 | The loop of set_header overwrites the value of the first match or appends a header. |
| Headers.SetThenGet | src/internal/runtime/builtins/mime.rs:73-93 | A value that was set is the one read if at most one header had the name; with two or more the read value stays the old one. |
| Headers.SetOther | src/internal/runtime/builtins/mime.rs:73-93 | Setting a header leaves the reading and the number of every other name as they were. |
| Headers.CaseIgnored | src/internal/runtime/builtins/mime.rs:69-79 | Headers are found and counted without regard to the case of their names. |
| Headers.RenderHeaders | src/internal/runtime/builtins/mime.rs:468-478 | The rendering loop, with its name and value checks in order, computes the specified block or the first error. |
| Headers.RenderedExactly | src/internal/runtime/builtins/mime.rs:99-119 | Headers are rendered exactly if every name is non-empty printable ASCII without colons and no value has a line break. |
| Headers.ParseHeaders | src/internal/runtime/builtins/mime.rs:663-697 | The parsing loop with its pending header computes the specified list or the first error. |
| Headers.SpreadHeaderReads | src/internal/runtime/builtins/mime.rs:663-697 | A header spread over any lines that begin with a space or a tab is read as its trimmed pieces joined by single spaces, with the words of the whole decoded. |
| Headers.BadLineFails | src/internal/runtime/builtins/mime.rs:663-697 | A fold with no header before it, a line without a colon and a bad name are errors. |
| Headers.HeaderRoundTrip | src/internal/runtime/builtins/mime.rs:381-478 | One header, encoded if needed and folded, is parsed back to itself exactly if its value is not ASCII, or is trimmed, free of encoded words and folds cleanly. |
| Headers.BlockRoundTrip | src/internal/runtime/builtins/mime.rs:663-697 | Every header of a composed block comes back, in order, whatever header precedes the block. |
| Headers.SplitBlock | src/internal/runtime/builtins/mime.rs:658-661 | The first empty line of a composed message is the one after its headers, so header block and body are told apart. |
| Multipart.MultipartSections | src/internal/runtime/builtins/mime.rs:714-759 | The splitting loop over lines computes the specified sections or its error. |
| Multipart.SectionsInvertFraming | src/internal/runtime/builtins/mime.rs:714-759 | Splitting a framed body returns exactly its parts, in order and with their final newlines, if and only if no line of a part is a delimiter. |
| Multipart.SurroundingsIgnored | src/internal/runtime/builtins/mime.rs:714-759 | What stands before the first delimiter and after the closing one does not matter. |
| Boundary.BoundarySeed | src/internal/runtime/builtins/mime.rs:533-559 | The nested loops over headers, body and parts compute the specified 64-bit FNV-1a hash. |
| Boundary.SeedIsOfText | src/internal/runtime/builtins/mime.rs:533-559 | The seed is the hash of all header names and values, bodies and parts of the tree run together in order, whatever its shape. |
| Boundary.KnownHash | src/internal/runtime/builtins/mime.rs:533-559 | A published test vector of FNV-1a, for one byte. |
| Boundary.KnownHashOfTwo | src/internal/runtime/builtins/mime.rs:533-559 | Another, for two bytes. |
| Boundary.CandidateShape | src/internal/runtime/builtins/mime.rs:576-587 | A candidate is mechanics, the seed in sixteen hexadecimal digits and the attempt in four or more, joined by hyphens. |
| Boundary.HitsBound | src/internal/runtime/builtins/mime.rs:561-587 | A text holds no more different candidates than it has bytes: each ends somewhere and no two end at the same place. |
| Boundary.TakenAttempts | src/internal/runtime/builtins/mime.rs:576-587 | If all attempts below a bound are taken, the bodies hold at least that many bytes, so the search ends. |
| Boundary.GenerateBoundary | src/internal/runtime/builtins/mime.rs:576-587 | The search terminates and returns the first candidate that no body of the tree contains. |
| ContentType.ComposedType | src/internal/runtime/builtins/mime.rs:201-237 | The type written for a multipart node has the given base and boundary when read again. |
| ContentType.ParsedBoundaryChars | src/internal/runtime/builtins/mime.rs:214-229 | A boundary read from a content type holds no semicolon and no character foreign to the type. |
| ContentType.BoundaryReads | src/internal/runtime/builtins/mime.rs:214-229 | The boundary of any content type is the value of its first parameter of that name, in whatever case and place it stands, without quotes around it. |
| ContentType.KindOfType | src/internal/runtime/builtins/mime.rs:201-212 | A type is text, or multipart, by how it begins, in any case, whatever parameters follow. |
| Compose.TokenParsesExactly | src/internal/runtime/builtins/mime.rs:42-63 | A transfer encoding is read from its own token in any case, and from nothing else. |
| RoundTrip.BodyRoundTrip | src/internal/runtime/builtins/mime.rs:510-531 | Whatever encoding a body is written in, decoding its LF-normalised form gives the bytes that encoding carries. |
| RoundTrip.TextComesBack | src/internal/runtime/builtins/mime.rs:239-243 | A text body comes back LF-normalised from every encoding once its line ends are normalised. |
| RoundTrip.LeafEncodingReads | src/internal/runtime/builtins/mime.rs:628-641 | The encoding a leaf is written in is the one its headers say, unless two transfer-encoding headers exist. |
| RoundTrip.HeadAndBody | src/internal/runtime/builtins/mime.rs:658-697 | The headers and the body of a written message are told apart, and the headers parse back to what was written. |
| RoundTrip.MultipartTypeReads | src/internal/runtime/builtins/mime.rs:601-613 | A written multipart node is recognised as one exactly if its base type is multipart, and its boundary is read back. |
| RoundTrip.NormalizeFramed | src/internal/runtime/builtins/mime.rs:614-626 | LF normalisation of the written multipart body is the framing of the normalised parts. |
| RoundTrip.MessageRoundTrip | src/internal/runtime/builtins/mime.rs:589-790 | For every tree whose headers survive, whose types fit its shape and whose parts hold no delimiter of their parent, parsing the LF-normalised rendering returns the tree with the written headers and each leaf's bytes as its encoding carries them. |
| RoundTrip.UnknownReadsPlain | src/internal/runtime/builtins/mime.rs:699-712 | A body under no transfer encoding, or an unknown one, is read as it stands. |
| RoundTrip.BoundaryNeeded | src/internal/runtime/builtins/mime.rs:761-790 | A multipart message whose type has no boundary is an error. |
| Freshness.BodyHasNoDelimiter | src/internal/runtime/builtins/mime.rs:510-587 | No line of a body written in any encoding is a delimiter of a non-empty boundary without equals signs, colons and line breaks that the content lacks. |
| Freshness.TreeClean | src/internal/runtime/builtins/mime.rs:589-646 | For such a boundary, found in no body of a tree, the rendered tree has a delimiter line exactly if some nested multipart node has a boundary that is not apart from it. |
| Freshness.FreshExactly | src/internal/runtime/builtins/mime.rs:561-626 | If such a boundary, named or generated, is found in no body of its node, the rendered parts hold no delimiter of it exactly if the boundaries nested in them are apart from it. |
| Freshness.GeneratedApart | src/internal/runtime/builtins/mime.rs:576-587 | Two generated boundaries share a delimiter only if they are equal. |
| Freshness.FreshIsApart | src/internal/runtime/builtins/mime.rs:589-646 | In a whole tree of such boundaries no part holds a delimiter of its parent exactly if the boundaries keep apart along every path, which can be seen without rendering. |
| Freshness.GeneratedPaths | src/internal/runtime/builtins/mime.rs:576-587 | Generated boundaries are such boundaries, and keep apart exactly if they differ along every path. |
| Freshness.WrapSharesBoundary | src/internal/runtime/builtins/mime.rs:533-587 | A bare multipart around one part is seeded like that part and gets the same generated boundary. |
| Collision.FramedDiffers | src/internal/runtime/builtins/mime.rs:714-759 | Where every part holds no delimiter or is not what is wanted when cut at its first one, a framed body that is cut before its closing delimiter, or has a part with a delimiter, cannot be split or has a section that is not what is wanted at its place. |
| Collision.CutMessage | src/internal/runtime/builtins/mime.rs:648-790 | A composed message cut before any line that could be a delimiter, in its headers, in a leaf's body in any encoding or within nested parts, does not parse to the message written; where boundaries are found in no body, a cut multipart node does not parse at all. |
| Collision.ComesBackExactly | src/internal/runtime/builtins/mime.rs:589-790 | Of the trees whose headers, types and leaves survive, with whatever boundaries, composing and parsing gives back exactly those in which no line of a rendered part is a delimiter of the node around it. |
| Collision.RoundTripExactly | src/internal/runtime/builtins/mime.rs:533-790 | If the boundaries, named or generated, are without equals signs, colons and line breaks and found in no body, the composed text parses at all if and only if no multipart node shares a delimiter with one it is nested in, and then it is the message written. |
| Collision.GeneratedExactly | src/internal/runtime/builtins/mime.rs:533-790 | With generated boundaries it parses if and only if no multipart node is given the boundary of one it is nested in. |
| Presentation.NormalizeUtf8 | src/internal/runtime/builtins/mime.rs:239-243 | Changing line ends neither makes nor breaks well-formed UTF-8. |
| Presentation.LeafShown | src/internal/runtime/builtins/mime.rs:812-838 | A leaf is shown as LF-normalised text under a text type and as bytes otherwise, with an error exactly if bytes under a text type are not UTF-8. |
| Presentation.ParseOfCompose | src/internal/runtime/builtins/mime.rs:648-850 | Parsing what was composed shows the same tree with its written headers, exactly if every byte body under a text type is UTF-8. |
| Presentation.ComposeMessage | src/internal/runtime/builtins/mime.rs:589-646 | The recursive rendering with its loop over parts, its boundary search and its errors in order computes the specified text. |
| AddedHeaders.SimpleComposes | src/internal/runtime/builtins/mime.rs:381-478 | Single-spaced ASCII words without an encoded-word opener survive under every valid header name. |
| AddedHeaders.LeafHeadersCompose | src/internal/runtime/builtins/mime.rs:628-643 | The version, type and encoding headers added to a leaf survive with the caller's own. |
| AddedHeaders.MultipartHeadersCompose | src/internal/runtime/builtins/mime.rs:601-613 | So does the type header of a multipart node with a one-word base and a boundary, named or generated, of ASCII characters without whitespace and question marks. |
| Leaves.LeafComposes | src/internal/runtime/builtins/mime.rs:480-531 | A leaf whose headers survive is composed exactly if its body can be written in the encoding its caller names, if any. |
| Leaves.EncodingReadBack | src/internal/runtime/builtins/mime.rs:480-500 | The encoding a leaf is read back with is the one named by the field, or else by a header; if none is named, base64 for bytes and for every type but text, and 7bit or quoted-printable for text that is ASCII or not. |
| Leaves.BytesComeBack | src/internal/runtime/builtins/mime.rs:480-531 | Bytes for which no encoding is named come back as they were, and are shown so under every type but text. |
| Leaves.TextStands | src/internal/runtime/builtins/mime.rs:480-531 | A text of a text type for which no encoding is named stands in the message as its CRLF lines, or as their quoted-printable encoding if they are not ASCII. |
| Accepted.WrappedMultipartFails | src/internal/runtime/builtins/mime.rs:533-790 | If a multipart part that names no content type is put in a bare wrapper, the composer writes the message and parsing it fails. |
| Accepted.WrappedMultipartHappens | src/internal/runtime/builtins/mime.rs:533-790 | There is such a message: an accepted one that is composed and does not parse. |
| Accepted.AcceptedComesBack | src/internal/runtime/builtins/mime.rs:589-850 | Under conditions on what the caller supplied only, with named or generated boundaries, a message is composed; parsing shows it again if no part holds a delimiter of its parent and does not read it back otherwise; where boundaries are found in no body, that is a question of the boundaries along each path, and a shared delimiter is an error. |
| Accepted.HeadersComeBack | src/internal/runtime/builtins/mime.rs:589-646 | A message that comes back has the caller's headers under every other name, as often as given, and the version 1.0 at the top only, unless the caller gives one. |
| Accepted.TypeComesBack | src/internal/runtime/builtins/mime.rs:601-613 | A multipart node that comes back has the base type its caller gave, or multipart/mixed, and the boundary it names, or a generated one. |
| Restarts.RestartGuard.AllowRestart | src/internal/pool/restart_guard.rs:22-36 | The eviction loop and the decision leave the limiter and the answer as specified. |
| Restarts.AllowKeeps | src/internal/pool/restart_guard.rs:22-36 | A call keeps the limiter equal to the grants still within the window, and any grant more than a window after the one a full quota earlier. |
| Restarts.RestartBound | src/internal/pool/restart_guard.rs:22-36 | Over any calls at non-decreasing times no closed interval of the window's length holds more grants than allowed, and the limiter remembers exactly the grants still within the window. |
| Restarts.GrantedExactly | src/internal/pool/restart_guard.rs:22-36 | After any calls at non-decreasing times, the next is granted exactly if fewer restarts than allowed were granted in the window that ends with it. |
| Executor.Queue.EnqueueJob | src/internal/executor.rs:334-382 | Each kind of job goes to its queue, a timer to its truncated instant, and an unsupported kind or an instant out of range becomes a failing generic job. |
| Executor.Queue.TakeDue | src/internal/executor.rs:162-182 | The two loops over the timer map drop cancelled timers, then take the due ones out in order. |
| Executor.Queue.DrainTimeoutJobs | src/internal/executor.rs:162-188 | The due timers are called in order until one fails. |
| Executor.Queue.DrainAll | src/internal/executor.rs:191-205 | Timers, one generic job, then the promise jobs queued by then are called, stopping at the first failure. |
| Executor.Queue.OneTurn | src/internal/executor.rs:221-328 | The body of the loop, with its two deadline checks, its exits and its waits, takes the specified step. |
| Executor.Queue.RunJobs | src/internal/executor.rs:207-329 | The loop runs turn by turn as specified, with its replies counted and its exit returned. |
| LoopSafety.EnqueueKeepsTimers | src/internal/executor.rs:334-366 | A new timer never goes before one already called or about to be, although its instant is truncated to milliseconds. |
| LoopSafety.TakingKeepsTimers | src/internal/executor.rs:162-182 | Timers called, taken and left stay in one firing order when cancelled and due ones are taken out. |
| LoopSafety.NoneLeftDue | src/internal/executor.rs:172-180 | No timer left in the map is due. |
| LoopSafety.EnqueueKeepsIds | src/internal/executor.rs:334-382 | Enqueueing puts the new job in exactly one place. |
| LoopSafety.DrainJobsKeeps | src/internal/executor.rs:191-205 | A drain, whatever its jobs do and whether it fails, keeps timer order, the order of promise and generic jobs, and every job in exactly one place. |
| LoopRuns.DrainJobsAdvances | src/internal/executor.rs:162-205 | A drain only adds to what has been called, and drops jobs only if it fails. |
| LoopRuns.TurnKeeps | src/internal/executor.rs:221-328 | Every turn keeps the invariant, with the in-flight count equal to the futures held, and every exit keeps its promises. |
| LoopRuns.TimersFireInOrder | src/internal/executor.rs:123-188 | Over a whole run timers are called in order of instant and then of enqueueing, none before its instant, and those left come after all of them. |
| LoopRuns.QueuesAreFifo | src/internal/executor.rs:191-205 | Over a whole run promise jobs are called in the order they were enqueued, and so are generic jobs. |
| LoopRuns.EveryJobOnce | src/internal/executor.rs:217-381 | In every reachable state each job enqueued is in exactly one place: queued, in flight, called, ended, removed as cancelled, or dropped by a failure. |
| LoopRuns.CompleteMeansDone | src/internal/executor.rs:238-249 | The loop completes only when every job enqueued was called, ended or removed, none was dropped or is in flight, and a settled main promise has been answered once. |
| LoopRuns.SettledIsAnswered | src/internal/executor.rs:221-249 | A watching loop replies at most once, and neither completes nor stops at the first deadline check of a turn with main settled but unanswered. |
| LoopCalls.EnqueueTimer | src/internal/executor.rs:334-366 | A timer is put at the whole millisecond its delay leads to, and becomes a failing generic job exactly if that is past the largest u64. |
| LoopCalls.CalledAsAsked | src/internal/executor.rs:334-382 | In every reachable state every job is where its kind belongs, and a generic job fails by itself exactly if the queue could not serve what was enqueued. |
| LoopCalls.DelaysPass | src/internal/executor.rs:162-188 | Over a whole run no timer is called before its delay has passed since it was enqueued, in whole milliseconds, and a timer still queued is due exactly from then on. |
| LoopCalls.TurnServes | src/internal/executor.rs:162-205 | A turn that does not return calls every timer due when it began and not cancelled since, the first generic job and no second, and every promise job queued, and calls no timer cancelled before it. |
| LoopCalls.CancelledNeverFires | src/internal/executor.rs:162-170 | A timer cancelled before it was called is never called, whatever happens afterwards. |
| LoopCalls.RemovedWereCancelled | src/internal/executor.rs:162-170 | Over a whole run only cancelled timers are removed without being called. |
| LoopCalls.FailsExactly | src/internal/executor.rs:184-329 | A run fails exactly if some job it called failed or was one the queue could not serve, or a future it waited for broke. |
| LoopWaits.NoWaitMeansReady | src/internal/executor.rs:251-306 | With no promise or generic job queued the loop skips its wait exactly if a timer is due or the deadline has passed. |
| LoopWaits.WaitEndsOnTime | src/internal/executor.rs:137-159 | A limited wait ends at or after the next timer or deadline and less than a millisecond past it. |
| LoopWaits.UnlimitedWait | src/internal/executor.rs:283-306 | The loop waits without limit exactly if futures are in flight, nothing is queued and there is neither timer nor deadline. |
| LoopWaits.WaitsAreAligned | src/internal/executor.rs:123-135 | In every wait of a run that starts with a deadline on a whole millisecond, the next timer and the deadline fall on whole milliseconds. |
| LoopWaits.UnansweredExit | src/internal/executor.rs:221-324 | A turn ends the loop without error, with the watched promise settled and unanswered, exactly if the promise was pending, no exit was taken before the wait, a future polled in it settled the promise, and the deadline had passed at the second check. |
| LoopWaits.UnansweredRun | src/internal/executor.rs:207-329 | A whole run ends so exactly if it comes to such a turn. |
| LoopWaits.UnansweredExitHappens | src/internal/executor.rs:294-324 | Such an exit occurs. |
| Runtime.RuntimeInternal.Track | src/internal/runtime.rs:69-87 | The rejection counter goes up and, not below zero, down as reports come in. |
| Runtime.RuntimeInternal.CallMain | src/internal/runtime.rs:373-444 | Calling main and polling to quiescence ends as specified, with the replies sent and the error if any. |
| Runtime.RuntimeInternal.RunSourceWithEarlyReply | src/internal/runtime.rs:293-487 | Setup, script, cleanup and outcome of a job leave the runtime as specified, each early return included. |
| Runtime.JobKeeps | src/internal/runtime.rs:352-486 | The early reply is sent at most once, the outcome says so exactly if it was, and afterwards the queues are empty, the deadline is cleared and no rejection is counted. |
| Runtime.NoMainResultMeans | src/internal/runtime.rs:352-470 | A job ends with neither error nor reply exactly if its main function is called and returns and its tail comes to a turn in which a polled future settles main and the second deadline check ends the loop. |
| Runtime.NoMainResultHappens | src/internal/runtime.rs:459-470 | There is such a job, and it is a possible one. |
| Runtime.UnhandledMeans | src/internal/runtime.rs:69-87 | A rejection counts as unhandled exactly if the reports from some point on reject more than they handle. |
| Runtime.UnhandledStopsMain | src/internal/runtime.rs:352-372 | A job left with an unhandled rejection fails with it before its main function does anything. |
| Runtime.RepliedMeans | src/internal/runtime.rs:352-486 | A job is answered exactly if its setup, evaluation and checks let main be called, main returns, and some turn of its tail begins with main settled. |
| Runtime.OutcomeNamesStage | src/internal/runtime.rs:293-390 | The outcome of a job that fails before its tail names the first stage it failed at. |
| Runtime.NeverCutShort | src/internal/runtime.rs:167-197 | A job is stopped by its deadline only when its whole limit has passed, in whole milliseconds. |
| Runtime.OnlyOwnCalls | src/internal/runtime.rs:447-454 | Nothing enqueued before a job is called during it, ends in it as a future, or is queued or in flight once its turns are over. |
| Runtime.JobsStartClean | src/internal/runtime.rs:302-347 | However the jobs on a runtime end, the next one starts with empty queues, no deadline and no rejection. |
| Runtime.JobsAreIsolated | src/internal/runtime.rs:302-454 | Of all the jobs a new runtime is given in turn, however they end, each starts clean, and nothing enqueued before it is called in it, ends in it as a future, or is queued or in flight once its turns are over. |
| Runtime.EvaluationWaitsAligned | src/internal/runtime.rs:167-197 | Whatever timeout a job has, every wait of its evaluation has its next timer and its deadline on whole milliseconds. |
| Runtime.TailWaitsAligned | src/internal/runtime.rs:167-197 | So has every wait of its tail. |
| Delivery.StepKeeps | src/internal/pool/shared.rs:231-304 | Every step of a caller, a worker or the closing pool keeps the queue, the taken jobs and the message counts in step. |
| Delivery.DeliveredOnce | src/internal/pool/shared.rs:231-304 | In every interleaving accepted jobs leave the queue in order and once each, no job gets two messages, and a finished one has got exactly one. |
| Delivery.NoSendBlocks | src/internal/pool/api.rs:256-311 | Whichever step comes next, the reply channel it sends on is empty, so no send waits. |
| Delivery.CanceledNeverRuns | src/internal/pool/shared.rs:236-245 | A job cancelled before a worker looks at its flag is never run, whatever happens later. |
| Delivery.TimedOutNeverRuns | src/internal/pool/api.rs:256-311 | A job whose caller gives up waiting, or offering it at its deadline, before a worker has looked at it is never run, whatever happens afterwards. |
| Delivery.RefusedNeverRuns | src/internal/pool/api.rs:320-372 | A job refused because the queue was full, or that its caller gave up offering, is never run. |
| Delivery.NoJobForgotten | src/internal/pool/shared.rs:231-304 | In every interleaving a finished job was run unless it was cancelled or the pool closed, and its one message is there for a caller that still listens. |
| Delivery.ForeignKeeps | src/internal/pool/shared.rs:231-304 | Steps of other threads leave a taken job's phase and message count as they are. |
| Delivery.RuntimeDelivers | src/internal/pool/shared.rs:246-285 | For every job that a runtime runs from a clean state, the worker's early reply and its finish are possible whenever they come, between any steps of others, and leave the job finished with exactly one message. |
| Delivery.TakenJobsFinish | src/internal/pool/shared.rs:236-285 | From every reachable pool at most three steps of its worker take a taken job to its end with exactly one message. |
| Delivery.DrainQueue | src/internal/pool/drop_impl.rs:9-14 | The drain loop of a closing pool takes jobs out one by one until none is queued, as specified. |
| Delivery.DrainedOk | src/internal/pool/drop_impl.rs:7-14 | The drain of a closing pool leaves nothing queued and sends each job it takes its one message. |
| Workers.StepKeeps | src/internal/pool/shared.rs:143-380 | Every step of a worker, a reaper or the supervisor keeps the map, the exit events, the reapers' lists and the limiter in step. |
| Workers.MapBounded | src/internal/pool/shared.rs:352-380 | In every interleaving the map holds at most the wanted number of handles, each of a thread that was started. |
| Workers.SpawnsBounded | src/internal/pool/shared.rs:364-379 | In every interleaving spawn attempts obey the limiter's bound, and each uses up one worker number. |
| Workers.NumbersAreNew | src/internal/pool/shared.rs:180-181 | A new worker gets a number that no thread, handle, event or reaper has. |
| Workers.OnlyIdleRemoved | src/internal/pool/api.rs:166-189 | A late or stale exit event, a reaper or a failed startup takes out of the map only workers out of service. |
| Workers.StaysOut | src/internal/pool/shared.rs:206-312 | A worker out of service stays so. |
| Workers.NoWorkerLost | src/internal/pool/shared.rs:143-380 | In every interleaving, until the pool is torn down, no more workers serve than are wanted, each has a handle or is just being given one, and one that left while in the map has its exit event pending. |
| Workers.GrantedComesUp | src/internal/pool/shared.rs:180-344 | A restart that the limiter grants, of a thread that starts and announces itself, puts a serving worker with a new number into the map and unblocks restarts. |
| Workers.ReapClears | src/internal/pool/shared.rs:150-175 | A reap that nothing disturbs takes exactly the handles of finished threads out of the map. |
| Workers.BlockedMeansShort | src/internal/pool/shared.rs:352-380 | In every interleaving, between reconciliations restarts are blocked exactly if fewer workers announced themselves in the last one than it found missing, also when it found none missing. |
| Workers.PoolShared.SpawnWorker | src/internal/pool/shared.rs:180-344 | A spawn uses up a number, leaves a handle and unblocks restarts exactly if the worker comes up. |
| Workers.PoolShared.ReconcileWorkers | src/internal/pool/shared.rs:352-380 | Undisturbed, the loop adds as many workers as it reports, keeps the live ones, never exceeds the wanted number, and blocks restarts exactly if some are still missing. |
| Retry.ExecuteEndpoint | src/internal/http/endpoint/execute.rs:162-241 | The loop computes the specified run of requests, sleeps and end. |
| Retry.AttemptsBounded | src/internal/http/endpoint/execute.rs:162-241 | At most the allowed number of requests is sent, every reply but the last was retryable and the last ends the call, a timeout reports the requests sent, and the call runs out without a reply only if the policy allows no attempt. |
| Retry.BudgetsShrink | src/internal/http/endpoint/execute.rs:94-104 | No attempt gets a larger budget than the one before it, and none a budget of zero, however transport and clock behave. |
| Retry.DelaysKept | src/internal/http/endpoint/execute.rs:162-235 | Over a whole call a request is repeated only after a reply the policy retries and not before its delay, or the deadline if that comes first, and no later if nothing else takes time; each request has what is left of the timeout. |
| Retry.LastIsFinal | src/internal/http/endpoint/execute.rs:190-235 | A call that ends with a reply before its last attempt got one that the policy does not retry. |
| Retry.EndsForCause | src/internal/http/endpoint/execute.rs:170-187 | A call times out only when less than a millisecond is left, fails as a bad request only if the request cannot be built, and then sends nothing. |
| Retry.TotalTimeBounded | src/internal/http/endpoint/execute.rs:88-104 | The call ends past its timeout by no more than the last attempt made and the sleep before it were late, and within it if neither was. |
| Retry.PromptIsExact | src/internal/http/endpoint/execute.rs:88-104 | Neither is late if every request sent keeps to its budget, every sleep made begins at once and wakes on time, and no time passes before a check that finds the budget gone. |
| FormUrlencoded.ParseSerialize | src/internal/runtime/builtins/url.rs:98-112 | Parsing a serialized non-empty list of pairs gives the list back, whatever its names and values hold. |
| FormUrlencoded.QueriesJoin | src/internal/runtime/builtins/url.rs:98-102 | The fields of a query are read one by one, and empty ones left out. |
| FormUrlencoded.LoneName | src/internal/runtime/builtins/url.rs:98-102 | A field without an equals sign is a name with an empty value. |
| FormUrlencoded.WordsStay | src/internal/runtime/builtins/url.rs:104-112 | Letters, digits and four signs stand for themselves, and a space is written as a plus sign. |
| SearchParams.ReadWrite | src/internal/runtime/builtins/url.rs:98-120 | Reading a query that was written gives the pairs back, the empty list included, and writing escapes nothing further. |
| SearchParams.UrlRefinesList | src/internal/runtime/builtins/url.rs:122-140 | After any operations a URL-backed object shows what a plain list would that began with the same pairs. |
| SearchParams.DeleteTouchesOnly | src/internal/runtime/builtins/url.rs:430-440 | Deleting takes out every pair of the name, or of the name with the value given, and no other, and keeps what is left in order. |
| SearchParams.SetLeavesOne | src/internal/runtime/builtins/url.rs:471-495 | Setting leaves one pair of the name, with the value, and all other pairs as they were. |
| SearchParams.SetStandsFirst | src/internal/runtime/builtins/url.rs:471-495 | The pair set stands where the first of its name stood, or last, with everything before it as it was. |
| SearchParams.AppendStandsLast | src/internal/runtime/builtins/url.rs:422-428 | An appended pair stands last, behind all others unchanged, also in a URL. |
| SearchParams.SortIsStable | src/internal/runtime/builtins/url.rs:497-503 | Sorting puts names in byte order and keeps each name's pairs in the order they had. |
| SearchParams.SortPermutes | src/internal/runtime/builtins/url.rs:497-503 | Sorting permutes the pairs. |
| SearchParams.StableSortIsUnique | src/internal/runtime/builtins/url.rs:497-503 | Only one list is in order and keeps each name's pairs, so any stable sort gives it. |
| SearchParams.RetainOthers | src/internal/runtime/builtins/url.rs:434-438 | The retain loop of delete computes the specified list. |
| SearchParams.SetFirst | src/internal/runtime/builtins/url.rs:475-493 | The retain loop of set, with its seen flag, computes the specified list. |
| SearchParams.WithPairs | src/internal/runtime/builtins/url.rs:122-133 | An operation changes the snapshot of either kind of object alike, and a URL's query is rewritten from the changed pairs. |
| SearchParams.WithAll | src/internal/runtime/builtins/url.rs:122-140 | So does a whole sequence of operations. |

## Left out

- Script values and engine objects: a job is a number with actions, a promise is settled or not, and the parsed message is shown with its headers as a list rather than as object properties.
- Collecting a message from script values (`src/internal/runtime/builtins/mime.rs:121-199`): only conversions and type errors.
- Presentation.ComposeMessage: has the bound of the boundary search below.
- Boundary.GenerateBoundary: asks for fewer than 2^64 - 1 bytes of body in all, since the counter of the search saturates there.
- Base64.CodecRoundTrip: the codec is the strict one of RFC 4648; input that the base64 crate would accept beyond it is an error here.
- Executor.Queue.RunJobs: `in_flight_async_jobs` and worker numbers are unbounded, so saturation and wrap-around at `usize::MAX` do not occur.
- LoopRuns.TurnKeeps: futures that are started run nothing before they are polled, as async closures do.
- Panics in workers and in jobs: release builds abort, so only the non-panicking path is modelled.
- Delivery.DrainedOk: covers the drain alone; that the whole drop terminates is not claimed, since the shutdown pass and a reconciliation may interleave.
- Workers.MapBounded: starts from a pool whose constructor succeeded; the teardown of a failed construction repeats the drop sequence.
- Workers.PoolShared.ReconcileWorkers: on its own, without the interleaved steps of other threads, which the step machine covers.
- Retry.ExecuteEndpoint: retryable statuses and delays are arbitrary functions, building the request is one yes-or-no answer, and decoding the final response with its size limit is left out as easy.
- SearchParams.SortIsStable: names are ordered by bytes, as the code does, and not by UTF-16 code units as the WHATWG URL Standard asks.
- SearchParams.ReadWrite: of a URL only the query is modelled; writing it follows the query percent-encode sets of the WHATWG URL Standard.
- `run` and `run_nonblocking_enqueue` themselves, pool statistics, metrics, configuration and the other built-in modules would only add easy members.
