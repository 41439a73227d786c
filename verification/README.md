# Gin and its standard-library copy: a verified model

This project models the parts of the repository that pair a simple meaning with a complicated implementation, and
proves that the two agree.

- **The routing tree** (`RouteTree`, `RouteInsert`, `Router`, `RouteClash`, `RoutePanics`, `RouteMatch`,
  `RouteLookup`, `RouteReach`, `RouteSearch`, `RouteExact`, `RouteAnswers`, `RouteSlash`, `RouterLookup`,
  `RouteTable`, `RouteFold`, `RouterFold`, `GinEngine`, `GinRoutes`). A mutable compressed trie of `Node` objects
  stands for a map from route patterns to handler chains. `RouteTree.Tree` is the value of a node, `RouteTree.Get` the
  map it stands for, `RouteTree.WF` its shape: `indices` in lockstep with the non-wildcard children, children in
  descending priority, the wildcard child last, priority equal to the number of routes below. `Router.Node` is the
  object; its methods are proved against functions on `Tree`, and those functions against the map. `RouteClash` says
  of two patterns alone whether they can be registered together. `RouteSearch` is the lookup by recursion that
  `getValue` does with a loop and a stack; `RouteExact` says in terms of the registered patterns alone which requests
  it answers, static children coming first: `Ahead` tells which of two patterns it tries before the other, and
  `DeadEnd` where a param makes it stop instead of going back.
- **Context cancellation** (`ContextTree`, `ContextChain`, `ContextCancel`, `ContextSafety`, `ContextSteps`,
  `ContextRuns`, `ContextResults`, `ContextProgress`, `ContextEnds`, `ContextFates`, `ContextLeaks`, `ContextRace`).
  `ContextChain.ComesTo` is going up by parents. Goroutines are stacks of calls in progress; one step is one atomic
  access or one block under a mutex. `ContextRuns.After` is the state after any list of steps, in any interleaving, of
  deriving contexts, cancel calls, timers, `Done` and `Err`.
- **The synchronous pipe** (`Pipe`, `PipeRuns`, `PipeResults`, `PipeErrors`, `PipeEnds`). Calls of `read`, `write`, `closeRead`
  and `closeWrite` as a step relation; a send and the receive it meets are one step. `PipeRuns.After` is the state
  after any list of steps.
- **Buffered I/O** (`IoReader`, `Scanner`, `BufReader`, `BufWriter`, `ByteBuffer`). `IoReader.Source` and
  `BufWriter.Sink` do anything the `io.Reader` and `io.Writer` contracts allow, by nondeterministic choice; the
  buffers are arrays that slide and grow, and refine a plain byte sequence.
- **Text** (`CleanPath`, `Html`, `HtmlUnescape`, `ByteSlices`, `FmtInteger`): `cleanPath` with its lazy buffer, HTML
  escaping and the in-place unescaper, split/join/replace, and integers formatted from right to left. The numeric
  references follow section 13.2.5.80 of the WHATWG HTML standard, the encoding of runes section 3 of RFC 3629.
- **Two small machines** (`HandlerChain`, `WasmRefs`): `Next`/`Abort` with its int8 cursor, and the ids of
  JavaScript values held by Go.

A method with the source's own name (`addRoute`, `getValue`, `fill`) models that function; functions and lemmas in
capitals are specification. A panic of the original is the result `ok == false`. Parameters marked `ghost` are proof
only. `Bytes` and `Options` hold what the modules share.

## Findings

- `context`: "a child still live when its parent is canceled takes the parent's error and cause" is not so. Until a
  cancel holds the child's mutex, a cancel of the child itself can come in first. `ContextFates.TakesExactly` says
  for every reachable state when the child is sure to take them, `ContextFates.AnyEnd` that otherwise it can end as
  any cancel of its own leaves it, and `ContextFates.OnlyEndIs` for which contexts that comes to the same, a child
  and a parent of WithCancel among them. `ContextRace.CauseRace` is a run of two contexts of WithCancelCause that
  end with different causes.
- `Context.IsAborted` can be true without `Abort`, for one handler that calls `Next` before 61 others is enough.
  `HandlerChain.abortedIsAborted` states exactly when it tells whether `Abort` was called.
- `bufio.Reader.Discard`, called with an error pending and nothing buffered, reads on past that error.
  `BufReader.DiscardKeepsOrder` states exactly when its result is in the order of the stream all the same.
- `bytes.Buffer.UnreadByte` documents an error after a read of no bytes or one that returned an error; after a
  `ReadBytes` it succeeds in both cases. `ByteBuffer.unreadAfterSlice` states exactly when the two agree. After a
  `Grow` that moves the bytes it succeeds and brings back nothing; `ByteBuffer.growBetween` states exactly when.
- `html.UnescapeString` departs from the standard in numeric references: `&#x;`, which has no digits, is read as a
  reference to 0 (`Html.NoDigits` says when); a single decimal digit without a semicolon is not read at all
  (`Html.UnendedReads`); and a number too large wraps around in 32 bits, so that `&#x100000041;` is read as "A"
  (`Html.NumberOverflows`).

## Model

| member | source | states |
|---|---|---|
| Router.longestCommonPrefix | tree.go:70-77 | the longest length at which the two strings agree |
| Router.findWildcard | tree.go:297-330 | the first segment with a `:` or `*`, and whether it holds no second one |
| Router.Node.addChild | tree.go:80-87 | a new child comes last, but before the wildcard child |
| Router.Node.moveForward | tree.go:157-163 | swapping forward past lower priorities is one move to the resting place |
| Router.Node.incrementChildPrio | tree.go:152-175 | the raised child moves forward past all of lower priority, and `indices` moves with it |
| Router.Node.insertChild | tree.go:332-441 | the chain of param and catch-all nodes for a new path; fails for the malformed wildcards the original panics on |
| Router.Node.splitEdge | tree.go:206-226 | splitting an edge leaves an upper and a lower node, and every node stays attached to its value |
| Router.Node.addBelow | tree.go:229-292 | which node the walk goes to below a matched prefix, and what it leaves |
| Router.Node.addRoute | tree.go:179-293 | the heap after the call, panics included, shows the tree that AddRoute specifies; nodes elsewhere keep their values |
| RouteInsert.InsertFresh | tree.go:332-441 | the nodes made for a path are well formed and hold exactly that one route |
| RouteInsert.SplitRaised | tree.go:206-226 | an edge split at any byte changes no route |
| RouteInsert.CountAllMoved | tree.go:152-175 | moving a child keeps the number of routes, and so the priorities above |
| RouteInsert.WalkAdds | tree.go:179-293 | a walk that returns adds exactly one route that was not there, keeps every other, and keeps the tree well formed |
| RouteInsert.AddRouteAdds | tree.go:179-293 | the same of a whole tree: every successful registration extends the map by its route and keeps the invariant |
| RouteClash.InsertOk | tree.go:295-441 | insertChild fails exactly on the patterns that are malformed by themselves: a wildcard without a name, two in one segment, a catch-all that is not last or not behind a slash |
| RouteClash.ClashVia | tree.go:201-226 | whether two patterns clash is decided behind what they have in common |
| RouteClash.ClashSymmetric | tree.go:252-273 | two patterns clash in either order of registration |
| RouteClash.PlainClashes | tree.go:252-286 | a wildcard-free path clashes with that path itself and with a catch-all above it only |
| RoutePanics.ConflictsVia | tree.go:228-250 | some route of a node clashes with a path if and only if one below the child for the path's next byte does |
| RoutePanics.NameConflicts | tree.go:252-272 | where the walk refuses another wildcard name, some registered route clashes with the path |
| RoutePanics.WalkOk | tree.go:199-293 | the walk fails if and only if the path is malformed or clashes with a route below |
| RoutePanics.AddRouteOk | tree.go:179-293 | so addRoute panics if and only if the pattern is malformed or clashes with a registered one |
| RouteMatch.PlainMatches | tree.go:632-656 | a route without wildcards matches itself only, and binds nothing |
| RouteMatch.MatchesJoin | tree.go:544-630 | matches of two parts of a pattern join to a match of the whole |
| RouteMatch.CatchAllMatches | tree.go:593-625 | a catch-all takes all of what is left, which starts with a slash, under its name |
| RouteReach.MatchesPast | tree.go:463-468 | a wildcard-free beginning of a pattern is matched byte for byte |
| RouteReach.MatchesParam | tree.go:544-576 | a param takes a stretch without a slash under its name, and the rest is matched by what follows |
| RouteLookup.LocatedChild | tree.go:463-524 | stepping into a child keeps the pattern, the bindings and the consumed bytes in agreement |
| RouteLookup.LocatedParam | tree.go:544-591 | so does binding the value of a param |
| RouteLookup.FoundCatchAll | tree.go:593-625 | the rest bound by a catch-all completes a match |
| RouteReach.MatchVia | tree.go:463-541 | where a node leaves no choice, a route below it matches a path if and only if one below the child it goes on in matches what is left |
| RouteReach.MatchParam | tree.go:544-591 | past a param, whose value reaches to the next slash, likewise; at the end of the path, if and only if the param has handlers |
| RouteReach.ForklessIs | tree.go:463-541 | the nodes of a tree leave no choice if and only if no two of its routes fork: first differ where one has a param and the other goes on otherwise |
| RouteSearch.SearchSound | tree.go:463-710 | a lookup that goes on in the wildcard child where the static one comes to nothing finds registered routes only, with bindings that spell the request |
| RouteSearch.SearchDirect | tree.go:470-656 | it finds a registered wildcard-free route as it is, whatever else is in the tree |
| RouteSearch.SearchForkless | tree.go:463-710 | where the tree leaves no choice it finds something if and only if some route matches |
| RouteExact.FirstThen | tree.go:470-541 | static child first: what it finds has no match ahead of it, and the wildcard child is tried exactly where below the static one nothing matches and no param stops the lookup |
| RouteAnswers.SearchExact | tree.go:463-710 | at any node, in terms of the routes below: it finds a match that no other match and no dead end is ahead of, it comes back only where nothing matches, and apart from a slash too few it stops only at a dead end ahead of all matches |
| RouteAnswers.SearchExactly | tree.go:463-710 | so for a whole tree and a request that takes no slash more: handlers come back if and only if some route matches with no dead end ahead of it |
| RouteAnswers.ComesBack | tree.go:502-541 | which is the case for a matching route if of the routes tried before it none has a param past the fork: the lookup comes back to the wildcard it passed over |
| RouteSlash.SlashFound | tree.go:460-462 | among wildcard-free routes a redirect is recommended wherever a slash more or less makes the request a route |
| RouteLookup.PlainChild | tree.go:470-512 | a registered wildcard-free route is always below the static child for its next byte |
| RouterLookup.backtrack | tree.go:518-536 | the last skipped node whose path ends in what is left, with all above it dropped |
| RouterLookup.resume | tree.go:515-541 | the lookup goes back to the last skipped node, whatever path is left, if there is one; what it will come to stays the same, and less is left to search |
| RouterLookup.intoStatic | tree.go:470-512 | going on in a static child, the passed-over wildcard child being kept on the stack, leaves what the lookup will come to as it was, and less to search |
| RouterLookup.intoWildcard | tree.go:538-630 | a wildcard child binds the right bytes, and what it answers is what the lookup comes to |
| RouterLookup.passNode | tree.go:463-541 | one turn of the loop at a node whose path the request passes: what the lookup comes to, or less to search for the same |
| RouterLookup.atNode | tree.go:634-710 | likewise where the request ends at the node or leaves its path |
| RouterLookup.getValue | tree.go:463-710 | the loop with its stack comes to what the lookup by recursion does; so if handlers come back, the full path is registered for exactly those, the params put into its wildcards rebuild the request, and no other match is ahead of it; a registered wildcard-free request gets its own handlers; for a request that takes no slash more handlers come back if and only if some route matches with no dead end ahead of it, and where no two routes fork if and only if some route matches; among wildcard-free routes a slash too many or too few is recommended to be mended; the search ends |
| RouteTable.IterateLists | gin.go:449-476 | the listing of a tree has exactly the registered routes, each once |
| GinEngine.iterate | gin.go:449-476 | the accumulating recursion lists what IterateTree specifies, after what it was given |
| GinEngine.MatchesCount | tree.go:89-93 | a match binds no more values than its pattern has wildcard marks |
| GinEngine.ClearOfTree | gin.go:409-438 | a path clashes with no route of a method's tree if and only if it clashes with nothing registered for the method |
| GinEngine.ApartMore | gin.go:409-438 | what is registered stays well formed and free of clashes |
| GinEngine.PlainClear | gin.go:409-438 | a wildcard-free path is clear if and only if it is neither registered nor under a registered catch-all |
| GinEngine.UnforkedTree | gin.go:751-783 | forks and matches of a tree's routes are those of what is registered for its method |
| GinEngine.Engine.get | tree.go:61-68 | the tree of a method, if there is one |
| GinEngine.Engine.addRoute | gin.go:409-438 | a registration panics if and only if the path is empty, rootless, malformed or clashes with one registered for the method, the method empty or the chain empty; one that returns adds its route and nothing else, and keeps every invariant |
| GinEngine.Engine.count | gin.go:431-437 | maxParams and maxSections stay the maxima over all registered paths |
| GinEngine.Engine.Routes | gin.go:442-447 | after any registrations, exactly the registered method and path pairs, each once, with the last handler of its chain |
| GinEngine.Engine.find | gin.go:751-783 | lookup over all methods agrees with the registrations: the first match with no dead end ahead of it for a request that takes no slash more, any match where no two routes of the method fork, exact on wildcard-free route sets, with a redirect recommended to a route that is a slash away, and the params fit in maxParams |
| GinRoutes.registerAll | gin.go:409-438 | any list of routes on a new engine is accepted if and only if each is acceptable and well formed by itself and no two of one method clash; wildcard-free ones, if no two have the same method and path |
| GinRoutes.PlainAccepted | gin.go:409-438 | without wildcards two routes clash if and only if they have the same method and path |
| GinRoutes.AnyOrder | gin.go:409-438 | whether a list of routes is accepted does not depend on their order |
| GinRoutes.lookUp | gin.go:751-783 | after that what a request finds is one of the routes, with bindings that rebuild the request, and no other match is ahead of it; a request that is a wildcard-free route finds it; a route that matches is found, whatever static routes are tried first, unless one of those has a param past the fork or the request takes a slash more; where no two routes of the method fork handlers are found if and only if some route matches, and among wildcard-free routes if and only if method and path are on the list |
| GinRoutes.listAll | gin.go:442-476 | whatever routes were accepted, wildcards and all, the listing is of exactly those, each once |
| RouteFold.FoldDown | tree.go:752-866 | a route equal to a path up to case goes on below the child for one of the two cases of the next byte |
| RouteFold.FoldIs | tree.go:752-760 | strings are equal up to case if and only if they differ at most in the two cases of letters |
| RouteFold.PlainRoutesPlainTree | tree.go:752-866 | if all routes are wildcard-free and ASCII then so is every node |
| RouterFold.tryLower | tree.go:826-838 | the recursive half of the search, for the lower-case byte |
| RouterFold.foldTurn | tree.go:757-862 | one turn of the loop answers, or goes on in the one child that can still have an answer |
| RouterFold.findRec | tree.go:752-866 | recursion for lower case and iteration for upper case together miss no route |
| RouterFold.findCaseInsensitivePath | tree.go:715-733 | succeeds if and only if a registered route equals the path up to ASCII case, and returns such a route |
| ContextTree.value | go/src/context/context.go:775-806 | the loop finds the nearest binding of a key; for the private key, the cancelCtx that cancels |
| ContextChain.NearestIs | go/src/context/context.go:775-806 | the cancelCtx found for the private key is the first at or above the context, with nothing but values before it |
| ContextChain.NoneNearest | go/src/context/context.go:775-806 | there is none if and only if a root or a WithoutCancel comes first |
| ContextChain.UnderIs | go/src/context/context.go:475-529 | a chain of cancelCtx from one to another is a chain of parents with no WithoutCancel on the way |
| ContextChain.LookupIs | go/src/context/context.go:775-806 | a caller's key has the value of the first binding at or above the context, WithoutCancel or not, and none if there is no binding |
| ContextChain.DeadlineIs | go/src/context/context.go:596-671 | the deadline is that of the first timer, and there is none if and only if a root or a WithoutCancel comes first |
| ContextTree.DeadlineIsMin | go/src/context/context.go:632-657 | a derived context expires at the earlier of its own and its parent's deadline |
| ContextTree.StaysTight | go/src/context/context.go:632-657 | no timer expires later than the deadlines above it |
| ContextSteps.CancelKeeps | go/src/context/context.go:549-579 | every step of cancel keeps the protocol's invariant |
| ContextSteps.TimerKeeps | go/src/context/context.go:679-691 | so does every step of a timer's cancel |
| ContextSteps.RemoveKeeps | go/src/context/context.go:399-413 | and of looking up the parent to be removed from |
| ContextSteps.DeleteKeeps | go/src/context/context.go:399-413 | and of the removal: nobody loses a child that still has to be canceled |
| ContextSteps.LinkKeeps | go/src/context/context.go:475-529 | and of propagateCancel, against a parent canceled at any moment in between |
| ContextSteps.ErrKeeps | go/src/context/context.go:463-471 | and of Err: what it returns was stored and the channel is closed |
| ContextRuns.DoKeeps | go/src/context/context.go:448-579 | every action a caller or a goroutine can take keeps the invariant |
| ContextRuns.After | go/src/context/context.go:448-579 | so the invariant holds after every run |
| ContextResults.WrittenOnce | go/src/context/context.go:549-568 | once set, error and cause never change, and a closed channel stays closed, whatever happens after |
| ContextResults.Registered | go/src/context/context.go:475-529 | while no cancel is in progress, a live context is registered in the first cancelCtx above it, whatever values are between, and that one is live |
| ContextResults.Closure | go/src/context/context.go:549-579 | while no cancel is in progress, everything derived from a canceled context, through any contexts but WithoutCancel, is canceled |
| ContextResults.CauseFromAbove | go/src/context/context.go:556-575 | a canceled context has the error and cause of one whose own cancel took effect, and from which it is derived without WithoutCancel |
| ContextResults.CauseCalled | go/src/context/context.go:549-579 | and those are the arguments of a cancel call on that context in the run, such as its cancel functions and its timer pass |
| ContextResults.OwnOrParents | go/src/context/context.go:475-575 | a canceled context has the error and cause of a cancel called on itself, or those of its parent |
| ContextResults.TakesParents | go/src/context/context.go:475-575 | a context canceled before any cancel is called on it has its parent's error and cause for good, whatever is called later |
| ContextFates.FateStays | go/src/context/context.go:549-579 | once a cancel holds a context's mutex, or has set its cause, the error and cause it will end with are settled, whatever happens after |
| ContextFates.Fulfil | go/src/context/context.go:549-579 | and they can come about |
| ContextFates.AnyEnd | go/src/context/context.go:549-579 | a live context whose mutex no cancel holds can still end as any cancel function or timer of its own leaves it, in every reachable state |
| ContextFates.OnlyEndIs | go/src/context/context.go:240-271 | a context has only one such end if and only if it is one of WithCancel, or a timer whose deadline had passed when it was derived |
| ContextFates.PassedDown | go/src/context/context.go:570-575 | a cancel passed down that holds the child's mutex brings it the parent's error and cause |
| ContextFates.TakesExactly | go/src/context/context.go:475-579 | a child is sure to take its canceled parent's error and cause if and only if it already has them, or a cancel with them holds its mutex, or no cancel holds it and its own cancels all bring the same |
| ContextRace.CauseRace | go/src/context/context.go:549-575 | a concrete run in which a child live when its parent's error was stored ends with a cause of its own |
| ContextProgress.Safe | go/src/context/context.go:448-568 | no channel is closed twice, no cancel lacks an error, the watcher goroutine is not needed, and no non-nil Err comes before the channel is closed |
| ContextProgress.HolderRuns | go/src/context/context.go:549-579 | mutexes are taken downwards only, so where one is held some goroutine can run |
| ContextProgress.Progress | go/src/context/context.go:399-579 | no deadlock: while any call is in progress some goroutine can take a step |
| ContextEnds.WorkFalls | go/src/context/context.go:448-579 | every step of a running call lowers a bound on the steps that are left |
| ContextEnds.StepsAreFew | go/src/context/context.go:448-579 | so without new calls there are no more steps than that, in any order |
| ContextEnds.AllReturn | go/src/context/context.go:448-579 | and when no step is possible any more, every call has returned |
| ContextEnds.CanReturn | go/src/context/context.go:448-579 | from every reachable state all calls can be brought to return |
| ContextEnds.CancelIsDone | go/src/context/context.go:549-579 | then every context whose cancel was called is canceled, and everything derived from it without WithoutCancel |
| ContextLeaks.NoLeaks | go/src/context/context.go:399-413 | and the children a live context holds are exactly the live contexts that it is the first cancelCtx above: a cancel releases its context |
| PipeRuns.MeetKeeps | go/src/io/pipe.go:50-96 | a handoff keeps the invariant: bytes received are the delivered prefixes of the writes, in order |
| PipeRuns.AckKeeps | go/src/io/pipe.go:76-96 | the acknowledgement comes from the reader of the one open handoff and reaches the writer that made it, with the right count |
| PipeRuns.DoKeeps | go/src/io/pipe.go:50-123 | every step of every call keeps the invariant |
| PipeRuns.After | go/src/io/pipe.go:50-123 | so it holds after every run |
| PipeResults.RunAttributed | go/src/io/pipe.go:76-96 | the bytes of two writes never interleave, and what was handed over by a write is the prefix it counts |
| PipeResults.Conservation | go/src/io/pipe.go:50-96 | what readers received, in handoff order, is the concatenation of the delivered prefixes of the writes, and each read got one handoff |
| PipeResults.WriteReturns | go/src/io/pipe.go:76-96 | a write returns the number of bytes delivered from it, a nil error only when all were, and otherwise the error of the closed end |
| PipeResults.ReadReturns | go/src/io/pipe.go:50-65 | a read returns the bytes of one handoff, or the error of the closed end |
| PipeResults.StoredOnce | go/src/io/pipe.go:20-33 | the first error stored for an end stays, and done stays closed |
| PipeErrors.RunErrors | go/src/io/pipe.go:67-105 | the errors stored for the two ends are those of closes of these ends in the run, io.EOF for a close of the write end without an error and ErrClosedPipe for one of the read end |
| PipeErrors.ReadFails | go/src/io/pipe.go:107-114 | a failed read has an error that the write end was closed with, or ErrClosedPipe where the read end was closed |
| PipeErrors.WriteFails | go/src/io/pipe.go:116-123 | a failed write has an error that the read end was closed with, or ErrClosedPipe where the write end was closed |
| PipeErrors.EndOfFile | go/src/io/pipe.go:98-114 | where only the write end is closed, and without an error, a failed read has io.EOF |
| PipeErrors.ReadAfterClose | go/src/io/pipe.go:50-114 | a read begun after a close of the read end returned ends with ErrClosedPipe and no bytes |
| PipeErrors.WriteAfterClose | go/src/io/pipe.go:76-123 | a write begun after a close of the write end returned writes nothing and ends with ErrClosedPipe |
| PipeResults.Progress | go/src/io/pipe.go:50-105 | no deadlock: after a close, and before it while a read and a write are both running, some running call can take a step |
| PipeEnds.WorkFalls | go/src/io/pipe.go:50-123 | every step of a running call uses up some of a bounded amount of work |
| PipeEnds.StepsAreFew | go/src/io/pipe.go:50-123 | so while no new call is made there are only so many steps |
| PipeEnds.AllReturn | go/src/io/pipe.go:50-123 | after a close, steps in any order come to an end, and then every call has returned |
| PipeEnds.CanReturn | go/src/io/pipe.go:50-123 | and there is such a sequence of steps |
| IoReader.Source.Read | go/src/io/io.go:55-86 | what an io.Reader may do: any piece, with or without the error behind it, with empty reads in between |
| IoReader.AheadSplits | go/src/io/io.go:55-86 | the bytes up to the next error are those read so far and those still ahead |
| Scanner.SplitIsLine | go/src/bufio/scan.go:345-372 | a token found in the data at hand is the input's first line whatever follows |
| Scanner.LimitIs | go/src/bufio/scan.go:186-209 | doubling ends at the greater of the buffer's size and the maximum |
| Scanner.Scanner.advance | go/src/bufio/scan.go:243-254 | accepts exactly the counts within the data |
| Scanner.Scanner.shift | go/src/bufio/scan.go:178-184 | sliding loses nothing |
| Scanner.Scanner.grow | go/src/bufio/scan.go:186-209 | growing loses nothing, and is refused only by a buffer full at its limit |
| Scanner.Scanner.Scan | go/src/bufio/scan.go:139-240 | the token is the first line of the input to come, however it is cut into reads; false only at the end, or at a line longer than the limit |
| Scanner.scanAll | go/src/bufio/scan.go:139-240 | the loop over Scan yields exactly the lines of the input if each fits, and in any case a prefix of them |
| Scanner.ShorterFit | go/src/bufio/scan.go:186-209 | lines shorter than maxTokenSize with their terminators all fit |
| Scanner.LinesWritten | go/src/bufio/scan.go:345-372 | lines written with any mix of newlines, alone or after a carriage return, come back as they are, before whatever follows; a line that ends in a carriage return keeps it if its break has one too |
| Scanner.LastLine | go/src/bufio/scan.go:345-372 | so does a last line without a newline, but for one carriage return at its end |
| Scanner.AnyInput | go/src/bufio/scan.go:345-372 | every input is its lines with such line breaks, and maybe a last line without one |
| BufReader.Reader.fill | go/src/bufio/bufio.go:99-127 | keeps the stream of unread bytes and errors; its panics are unreachable |
| BufReader.Reader.Read | go/src/bufio/bufio.go:216-263 | the next bytes of the stream or its next error, once each, through the buffer or past it: buffered bytes first, as many as there is room for, and nothing only where nothing was asked for or the source's own read came back empty; "reader returned negative count" aside |
| BufReader.Reader.ReadByte | go/src/bufio/bufio.go:267-279 | the next item of the stream |
| BufReader.Reader.UnreadByte | go/src/bufio/bufio.go:286-301 | puts the last byte back in front, or reports that it cannot |
| BufReader.Reader.peekByte | go/src/bufio/bufio.go:267-301 | ReadByte and UnreadByte leave the stream as it was |
| BufReader.Reader.ReadSlice | go/src/bufio/bufio.go:351-390 | the stream through the first delimiter, or up to the error, or a full buffer without one |
| BufReader.Reader.ReadLine | go/src/bufio/bufio.go:408-441 | a line without its end, a part of a long one that never splits CR from LF, or the error; "rewind past start" is unreachable |
| BufReader.Reader.collectFragments | go/src/bufio/bufio.go:450-472 | full buffers and a last fragment that together are the stream through the first delimiter |
| BufReader.Reader.ReadBytes | go/src/bufio/bufio.go:481-492 | exactly the unread stream through the first delimiter, or the rest and the error |
| BufReader.ErrIffNotEnded | go/src/bufio/bufio.go:474-492 | the error is non-nil if and only if the data does not end in the delimiter |
| BufReader.ReadsOnce | go/src/bufio/bufio.go:481-492 | chunking and buffer size do not matter: result and remaining stream are determined |
| BufReader.Reader.Peek | go/src/bufio/bufio.go:143-170 | the next bytes without taking them, or why there are fewer: the error, or the size of the buffer, and then as many as it holds or come before an error |
| BufReader.Reader.Discard | go/src/bufio/bufio.go:177-207 | skips exactly the bytes it reports, and an error if and only if fewer than asked; where an error is pending and nothing buffered, what one read of the source brings determines what is skipped, reported and left |
| BufReader.DiscardKeepsOrder | go/src/bufio/bufio.go:177-207 | the result is in the order of the stream if and only if no error was pending with nothing buffered, or the source's next item is that same error |
| BufReader.ErrorsMerge | go/src/bufio/bufio.go:177-207 | in the latter case the two errors are reported as one |
| BufReader.Reader.discardPastError | go/src/bufio/bufio.go:177-207 | with a byte next at the source the pending error is passed over |
| BufWriter.Writer.Flush | go/src/bufio/bufio.go:638-659 | moves bytes to the sink and loses none, even after a short write; an error comes from the sink, is sticky, and nothing is asked of the sink after it |
| BufWriter.Writer.Write | go/src/bufio/bufio.go:679-701 | accepts the reported prefix and nothing else; short only with an error of the sink; what fits the buffer does not go to the sink |
| BufWriter.Writer.WriteByte | go/src/bufio/bufio.go:704-714 | accepts the byte or reports an error |
| BufWriter.Writer.WriteString | go/src/bufio/bufio.go:750-781 | as Write, whether or not the sink takes strings |
| BufWriter.runAll | go/src/bufio/bufio.go:638-781 | after any calls the sink's bytes and then the buffered ones are all the accepted bytes; all of them unless the sink failed, which it did at most once |
| ByteBuffer.Buffer.tryGrowByReslice | go/src/bytes/buffer.go:121-127 | succeeds exactly when the capacity is there |
| ByteBuffer.Buffer.grow | go/src/bytes/buffer.go:132-163 | keeps the unread bytes and makes room for n more in every branch; fails only where sizes overflow |
| ByteBuffer.Buffer.growSlice | go/src/bytes/buffer.go:235-258 | a fresh array that starts with the unread bytes |
| ByteBuffer.Buffer.Grow | go/src/bytes/buffer.go:170-176 | changes no content and leaves the capacity asked for; when it moves the bytes, and when it forgets the last read |
| ByteBuffer.Buffer.Write | go/src/bytes/buffer.go:181-188 | appends to the queue |
| ByteBuffer.Buffer.WriteByte | go/src/bytes/buffer.go:291-299 | appends to the queue |
| ByteBuffer.Buffer.Truncate | go/src/bytes/buffer.go:97-107 | keeps the first n unread bytes, and panics exactly outside 0 to Len |
| ByteBuffer.Buffer.Read | go/src/bytes/buffer.go:324-340 | takes from the front of the queue; io.EOF exactly when it is empty and bytes were asked for |
| ByteBuffer.Buffer.Next | go/src/bytes/buffer.go:346-358 | takes from the front of the queue |
| ByteBuffer.Buffer.ReadByte | go/src/bytes/buffer.go:362-372 | takes one byte from the front |
| ByteBuffer.Buffer.ReadRune | go/src/bytes/buffer.go:379-395 | takes one rune from the front |
| ByteBuffer.Buffer.readSlice | go/src/bytes/buffer.go:445-456 | takes through the first delimiter, or everything |
| ByteBuffer.Buffer.UnreadRune | go/src/bytes/buffer.go:402-411 | succeeds exactly after a ReadRune that is the last read or write, and goes back by that rune where it still can |
| ByteBuffer.Buffer.UnreadByte | go/src/bytes/buffer.go:419-428 | succeeds exactly where the last read or write is recorded as a read |
| ByteBuffer.peekRune | go/src/bytes/buffer.go:379-411 | UnreadRune right after ReadRune restores the queue |
| ByteBuffer.peekByte | go/src/bytes/buffer.go:362-428 | UnreadByte right after ReadByte restores the queue |
| ByteBuffer.unreadAfterSlice | go/src/bytes/buffer.go:413-456 | after a read to a delimiter UnreadByte always succeeds; it agrees with its documentation on reads of no bytes if and only if there was something to read, and on reads that returned an error if and only if the delimiter was there |
| ByteBuffer.unreadAfterNothing | go/src/bytes/buffer.go:413-456 | after one that read nothing it brings back an older byte, if there was one |
| ByteBuffer.growBetween | go/src/bytes/buffer.go:132-176 | between ReadByte and UnreadByte on more than one byte, Grow leaves UnreadByte successful, and the byte restored if and only if the spare capacity was enough; on one byte UnreadByte fails |
| CleanPath.bufApp | path.go:128-151 | appends to the output, in the path itself as long as they agree and in a buffer from then on |
| CleanPath.cleanPath | path.go:23-124 | for every path, in bounds and across the 128-byte switch, the result of splitting on slashes, resolving on a stack and joining |
| CleanPath.Idempotent | path.go:13-22 | a clean path is its own canonical form |
| CleanPath.SlashesAreOne | path.go:13-22 | slashes in a row clean as one |
| CleanPath.DotGoes | path.go:13-22 | an element "." goes |
| CleanPath.DotDotGoes | path.go:13-22 | an element ".." goes together with the element before it |
| CleanPath.RootStays | path.go:13-22 | ".." at the root goes |
| CleanPath.RootedAlike | path.go:38-52 | a path without a slash in front cleans as with one |
| CleanPath.DotsAtEnd | path.go:67-92 | at the end "." leaves a slash, and ".." after an element leaves none |
| CleanPath.CanonicalStays | path.go:13-22 | a path of proper elements, with or without a slash at the end, is clean |
| CleanPath.CleanForm | path.go:13-22 | a clean path starts with a slash and has no element "", "." or ".." before its end |
| CleanPath.TrailingIs | path.go:41-45 | when the trailing slash is kept, told from the last bytes |
| CleanPath.SplitRender | path.go:13-22 | splitting what was joined gives the elements back |
| Html.EncodedReadsBack | go/src/html/escape.go:104-111 | a rune can be read back from its encoding; what is no scalar value reads as U+FFFD |
| Html.ReferenceShrinks | go/src/html/escape.go:52-164 | no reference stands for more bytes than it has |
| Html.NameReads | go/src/html/escape.go:124-145 | a name of the table is read as one reference, whatever follows a semicolon |
| Html.TwoRead | go/src/html/escape.go:146-148 | so is one of the two-rune table that the other has not; what it stands for is the encoding of the first rune and then that of the second |
| Html.PrefixReads | go/src/html/escape.go:149-158 | of an unknown name the longest known prefix of 2 to 6 bytes is read, and the rest is text |
| Html.UnknownKept | go/src/html/escape.go:149-163 | an unknown name without a known prefix is kept as it stands |
| Html.LoneKept | go/src/html/escape.go:62-163 | so is an ampersand with neither a name nor a number behind it |
| Html.NumberReads | go/src/html/escape.go:69-121 | any run of decimal or hexadecimal digits, ended by a semicolon, is read as the number it is in 32 bits, but for those the standard replaces |
| Html.NumberKept | go/src/html/escape.go:69-121 | the reference to a code point decodes to that code point if and only if it is not one of those |
| Html.NumberOverflows | go/src/html/escape.go:82-118 | a number past U+10FFFF becomes U+FFFD, as the standard says, if and only if it does not wrap around to another character |
| Html.UnendedReads | go/src/html/escape.go:69-121 | a run of digits without a semicolon is read if and only if it is hexadecimal or has two digits |
| Html.FixedRunes | go/src/html/escape.go:12-118 | the replaced code points are exactly 0, the surrogates, and 27 of the 32 from U+0080 |
| Html.NoDigits | go/src/html/escape.go:69-118 | a numeric reference without digits is read, and then as U+FFFD, if and only if it is hexadecimal and a semicolon follows |
| Html.RoundTrip | go/src/html/escape.go:166-214 | unescaping an escaped text gives the text, for every text |
| Html.EscapedSafe | go/src/html/escape.go:166-185 | an escaped text has no "<", ">" or quote |
| Html.EscapedSame | go/src/html/escape.go:166-185 | a text without the five characters is left as it is |
| HtmlUnescape.unescapeEntity | go/src/html/escape.go:56-164 | replaces the reference in place, with dst at most src, and touches no byte still to be read |
| HtmlUnescape.UnescapeString | go/src/html/escape.go:187-214 | the in-place rewrite gives the text with every reference replaced, for every text |
| HtmlUnescape.escapeAndBack | go/src/html/escape.go:166-214 | the round trip through the program itself |
| ByteSlices.IndexIsFirst | go/src/bytes/bytes.go:1312-1397 | Index is the first instance, or there is none |
| ByteSlices.count | go/src/bytes/bytes.go:57-74 | the number of instances that do not overlap, from the left |
| ByteSlices.genSplit | go/src/bytes/bytes.go:381-409 | the pieces, at most n of them, with the asked-for part of the separators |
| ByteSlices.JoinSplit | go/src/bytes/bytes.go:381-409 | joining the pieces with the separator gives the whole, for every limit on their number |
| ByteSlices.ConcatSplitAfter | go/src/bytes/bytes.go:381-409 | pieces that keep their separators concatenate to the whole |
| ByteSlices.PiecesClean | go/src/bytes/bytes.go:381-409 | no piece contains the separator |
| ByteSlices.EnoughIsAll | go/src/bytes/bytes.go:381-409 | one more piece than instances is all pieces |
| ByteSlices.PieceCount | go/src/bytes/bytes.go:381-409 | there is one piece more than instances, but no more than the limit |
| ByteSlices.PiecesReach | go/src/bytes/bytes.go:381-409 | every piece but the last is what comes before the separator at its first instance, with the asked-for part of it behind; the last has no instance, unless it is as many as the limit |
| ByteSlices.Join | go/src/bytes/bytes.go:565-595 | the parts with the separator between them; panics exactly where the length estimate overflows |
| ByteSlices.ReplacedLength | go/src/bytes/bytes.go:1177-1193 | the precomputed length is the length of the result |
| ByteSlices.Replace | go/src/bytes/bytes.go:1177-1214 | replacing is splitting by the old and joining with the new, for the first n instances or all |
| FmtInteger.DigitsEvaluate | go/src/fmt/format.go:231-272 | the digits evaluate in their base to the number |
| FmtInteger.BodyReadsBack | go/src/fmt/format.go:231-277 | so do they with the zeros that precision puts before them |
| FmtInteger.SignByte | go/src/fmt/format.go:307-316 | the text starts with a minus if and only if the number is negative, with a plus if and only if it is not and the plus flag is set, with a blank if and only if there is only the space flag |
| FmtInteger.BaseBytes | go/src/fmt/format.go:279-306 | then come "0o" for the verb, and with the sharp flag "0b", or "0x" in the case of the digits |
| FmtInteger.DigitsSay | go/src/fmt/format.go:215-296 | and digits of the base that say the magnitude, as many as the precision asks for, with no zeros in front beyond that but the one that marks octal |
| FmtInteger.ZeroWidth | go/src/fmt/format.go:229-234 | the zero flag fills the width with zeros, sign included, and what names the base comes on top |
| FmtInteger.PadSides | go/src/fmt/format.go:93-108 | the field is as wide as asked for, with the padding behind the text for the minus flag and before it otherwise |
| FmtInteger.AtMost64 | go/src/fmt/format.go:197-213 | a uint64 has at most 64 digits in any supported base |
| FmtInteger.RoomLeft | go/src/fmt/format.go:203-323 | digits, zeros, prefix and sign fit the buffer that was chosen, so the cursor never passes 0 |
| FmtInteger.Fmt.fmtInteger | go/src/fmt/format.go:197-324 | sign, prefix, zeros and digits of the number in its padded field, for every base, sign, flag, width and precision; nothing for zero with precision zero |
| FmtInteger.Fmt.fmtUnicode | go/src/fmt/format.go:138-194 | U+, at least four hexadecimal digits, and the quoted character where asked for and printable |
| FmtInteger.UnicodeFits | go/src/fmt/format.go:138-194 | the cursor of fmtUnicode never passes 0 |
| FmtInteger.UnicodeTight | go/src/fmt/format.go:143-151 | with `%#U` and a four-byte character all of the prec + 9 bytes are needed |
| FmtInteger.Fmt.pad | go/src/fmt/format.go:93-108 | blanks or zeros up to the width, counted in runes, before or after the text |
| HandlerChain.combineHandlers | routergroup.go:252-265 | accepts fewer than 63 handlers, the group's first |
| HandlerChain.Context.Next | context.go:187-195 | starts the handlers behind the cursor in order, none after an abort, all of them without one; it ends aborted if and only if one of them aborts, and otherwise with the cursor as far behind the chain as there are handlers that call Next |
| HandlerChain.serve | context.go:187-208 | for any accepted chain whose handlers call Next at most once: each starts at most once and in order, exactly once without an abort, none after one; the int8 cursor ends at 126 at most, which is reached; IsAborted if and only if a handler aborts or the handlers and those of them that call Next are 63 or more together |
| HandlerChain.abortedIsAborted | context.go:198-208 | so IsAborted tells whether Abort was called if and only if it was, or they are fewer than 63 together |
| HandlerChain.loneCaller | context.go:187-208 | one handler that calls Next, before 61 that do nothing, is enough for it not to |
| WasmRefs.AgainKeeps | go/lib/wasm/wasm_exec.js:160-178 | storing a value that has an id keeps the tables mutually inverse, pooled ids distinct and dead, counts equal to stores less finalizations |
| WasmRefs.FirstKeeps | go/lib/wasm/wasm_exec.js:164-178 | so does storing one that has none |
| WasmRefs.LessKeeps | go/lib/wasm/wasm_exec.js:313-323 | so does a finalization, the last one freeing the id |
| WasmRefs.StoreKeepsValues | go/lib/wasm/wasm_exec.js:147-195 | a store changes no live id's value |
| WasmRefs.FinalizeKeepsValues | go/lib/wasm/wasm_exec.js:313-323 | a finalization changes no value of an id still live |
| WasmRefs.TypeKnown | go/src/syscall/js/js.go:265-290 | from a reference the Go side tells the type of its value |
| WasmRefs.Refs.storeValue | go/lib/wasm/wasm_exec.js:147-195 | the reference written loads the value stored, and Go's Type tells its type |
| WasmRefs.Refs.finalizeRef | go/lib/wasm/wasm_exec.js:313-323 | one reference less, and the tables still agree |
| WasmRefs.runAll | go/lib/wasm/wasm_exec.js:147-323 | after any stores and finalizations the references left are those to the values stored and not finalized, each loads its value and tells its type, two are equal to Go exactly where their values are to JavaScript, and ids are reused, so that the tables do not outgrow the most values held at once |

## Left out

- GinEngine.Engine.addRoute: the state after a panic is not claimed to be valid.
- GinEngine.Engine.find: for a request that ends in a slash, or that with one more is taken literally by a route, handlers are promised only where no two routes fork, because the original then answers with a trailing-slash recommendation instead of going back (tree.go:504, tree.go:635, tree.go:687-692).
- GinRoutes.lookUp: the same requests as for GinEngine.Engine.find.
- RouterLookup.getValue: the same requests as for GinEngine.Engine.find; a redirect can also be recommended where no such route exists, and is promised among wildcard-free routes only, since going back loses it; `unescape` is off, params and the skipped stack start empty, and the capacity of the stack is not modelled.
- RouterFold.findCaseInsensitivePath: ASCII and wildcard-free routes with fixTrailingSlash off; the branches for a rune of several bytes, for wildcards and for a missing or extra slash are left out. The engine itself passes RedirectFixedPath as fixTrailingSlash.
- RouterFold.foldTurn: the same branches are left out.
- RouterFold.findRec: the same branches are left out.
- Router.findWildcard: paths with a backslash escape are excluded.
- Router.Node.insertChild: paths with a backslash escape are excluded.
- Router.Node.addBelow: paths with a backslash escape are excluded.
- Router.Node.addRoute: the empty route and the empty chain, which the engine refuses beforehand; paths with a backslash escape are excluded, and so is updateRouteTree; the wildcard branch does not advance parentFullPathIndex, as in the original, which only affects the fullPath of nodes without handlers.
- A nil handler chain and an empty one are the same value; the engine refuses both.
- Priorities are unbounded integers; param and section counts saturate at 65535 as in the original.
- Context implementations from outside the package, AfterFunc and stopCtx, and the watcher goroutine; a timer firing is a cancel call that may come at any time, and stopping the timer is a step without effect.
- WithTimeout and the package's wrappers, which only choose arguments of the modelled calls; the cancel function of a context derived past its deadline (go/src/context/context.go:647), which finds it canceled and changes neither error nor cause.
- A caller that changes the slice it passed to a pipe's Write while the write is in progress.
- ContextEnds.CancelIsDone: contexts whose derivation has not returned, which no caller has.
- Scanner: split functions other than ScanLines, ErrFinalToken, and the panics on misuse; bad counts and 100 empty reads in a row cannot come from the sources considered. After ErrTooLong a further Scan would return the buffered part of the line.
- BufReader.Reader.Read: sources that return counts out of range; such sources make the original panic.
- IoReader.Source.Read: sources without an end, bad counts, 100 empty reads in a row, and a Read into an empty slice.
- BufReader: ReadRune, UnreadRune, ReadString, WriteTo and Reset; a source whose own error is ErrBufferFull, which callers of ReadSlice could not tell from the reader's.
- BufWriter: WriteRune, ReadFrom, Reset, AvailableBuffer, and a sink that is itself a Writer of sufficient size, which NewWriterSize returns as it is.
- ByteBuffer: ReadFrom, WriteTo, WriteString, WriteRune and ReadString; failure to allocate below the overflow guard; utf8.DecodeRune is a parameter.
- CleanPath.cleanPath: removeRepeatedChar is left out; the buffer switches to the heap at 128 bytes as in the original, but a Go slice's capacity is not modelled apart from that.
- Html: the table of named references is a parameter with stated assumptions, that no replacement is longer than its name with the ampersand and that the names the escaper writes mean what they should; the attribute mode of unescapeEntity is off in the original too.
- ByteSlices.count: the empty separator, which is counted in runes.
- ByteSlices.Replace: the empty old slice, which is found between runes.
- ByteSlices.IndexIsFirst: Index is specified, not computed as the original does.
- ByteSlices.genSplit: empty separators, for which the original splits into UTF-8 sequences; Fields, FieldsFunc, asciiSet and Repeat; Index is specified, not the assembly behind it.
- FmtInteger.Fmt.pad: the width is counted in runes of valid UTF-8, which is all the two formatters write.
- FmtInteger.Fmt.fmtInteger: the verb 'O' with a base other than 8, which the package never combines; fmtSbx and the other formatters; strconv.IsPrint is a parameter.
- HandlerChain.serve: handlers that call Next more than once, or that change the chain, as HandleContext does.
- WasmRefs.Refs.finalizeRef: a reference that is finalized more often than it was stored, which the Go side does not do.
- WasmRefs: the memory the references live in, and the instance and import glue.
- go/src/fmt/print.go argument numbering, go/src/embed/embed.go lookup, go/src/io/multi.go and validateHeader in gin.go would add easier members.
