# Verified model of webx

This project models the logic of webx, a hand-written HTTP component library in Go, and proves properties of it
with Dafny. To check it, run `dafny verify dfyconfig.toml`.

What is modelled, one or two modules a component:

- **Route tree** (`RouteTable`, `RouteMatch`, `RouteTheorems`, `Router`, `Patterns`, `PatternTheorems`,
  `PatternParts`, `DispatchTheorems`, `Text`). `Router` is the mutable tree with its loops. A ghost map from
  positions to objects makes the tree's shape a flat invariant and its value a finite table, on which registration,
  lookup and dispatch are specified without the tree.
- **Form binder** (`FormBinder`). The recursion over objects with a set of open types, against the leaves on paths
  on which no struct type repeats.
- **Handler chain** (`HandlerChain`). The index machine that handlers re-enter, against nested calls.
- **JSON envelope** (`JsonEnvelope`, `Numerals`). The encoder, against a reader that undoes it.
- **Timeout** (`TimeoutWriter`). The write-once context on a chain of writers, each with a deadline that may pass
  before any call, and timeouts inside timeouts.
- **Compressing writer** (`GzipWriter`). The buffering state machine, against what a client reads.
- **Metrics** (`Metrics`). The atomic operations of the middleware, interleaved in any way.
- **Rate limiter** (`RateLimiter`). The swept table of token buckets, against one bucket that is never swept.
- **Concurrency limiter** (`ConcurrencyLimit`). The compare-and-swap loop under every interleaving.
- **Certificate cache** (`CertificateCache`). The cache keyed by two modification times, with the files rewritten
  between any two file operations.
- **Route groups** (`RouteGroups`, `GroupBuilder`). Histories of calls, and the mutable groups with their slices.

Objects whose methods update fields are classes; each method is proved against a function of the old state, and the
theorems are about those functions. Bytes are characters. Every loop and recursion is proved to end.

Where the code and its own comments or promises differ, the model follows the code:

- Lookup never backtracks, so completeness holds for trees whose nodes have children of one kind
  (`RouteTheorems.MatchFoundIff`); `RouteTheorems.NoBacktracking` shows what happens otherwise.
- A comment calls the subtree fallback the shallowest match (`router.go:203`). It is overwritten on the way down and
  is the deepest (`RouteMatch.DeepestIs`).
- A wildcard directly under the root captures the path with its leading slash (`RouteTheorems.WildcardCaptures`), and
  the path `/` does not find an exact route whose pattern is empty (`RouteMatch.ExactFoundIff`: no trailing slash).
- A comment says that translation guarantees a pattern that parses (`router.go:74`). It fails exactly for paths
  in which something follows a part that starts with `{` and ends in `...}` (`PatternParts.ParsesIff`); the dropped
  error then registers the root (`DispatchTheorems.HandleKeepsIff`).
- A colon or star inside a part translates, but the parser then finds other names than the translator collected, or
  none (`PatternParts.NamesKeptIff`).
- `WriteHeader` of the compressing writer does not drain the buffer: a status written after a short body loses that
  body (`GzipWriter.LateHeaderLoses`); `GzipWriter.ConservedIff` is the exact condition.
- A handler that writes or flushes around the context can get its response mixed with the 503
  (`TimeoutWriter.MixedIff`, `TimeoutWriter.MixedHappens`, `TimeoutWriter.FlushMixes`), and a file sent behind another
  response sends a second status (`TimeoutWriter.PlainOneStatusIff`).
- A part spelled `{id}` makes a parameter node, but its value is not handed on, because the translator collects only
  the names behind a colon or a star (`DispatchTheorems.DeliveredIff`).
- The certificate cache misses a rewrite that keeps the file's time (`CertificateCache.RewriteSeenIff`); for
  `CertificateCache.HitIsFresh` a rewrite need not give a later time, only one the file never had.
- Without a limit the concurrency limiter's counter runs below zero (`ConcurrencyLimit.UnlimitedDrifts`).
- Sweeping the rate limiter more often than every 100 ms gives a key more than its rate
  (`RateLimiter.SweepIntervalIff`).
- A comment says that `Use` affects routes registered before it (`route.go:77`). It does not
  (`RouteGroups.LaterCallsOnlyAdd`).

## Model

| member | source | states |
|---|---|---|
| `RouteTable.TableDetermined` | router.go:25-34 | the set of registered routes determines the whole tree value: nodes, names, kinds and handlers |
| `RouteTable.AcceptsIff` | router.go:114-147 | a tree takes a route if and only if the route is compatible with every route it holds (equal names at shared positions; at an equal position another method and the same kind) |
| `RouteTable.AddedRepresents` | router.go:109-153 | a successful insert makes the tree hold the old routes and the new one, and nothing else |
| `RouteTable.RegistersIffCompatible` | router.go:109-153 | a list of routes all registers if and only if the routes are pairwise compatible, and then the tree holds exactly them |
| `RouteTable.OrderIndependent` | router.go:109-153 | permuting a list of registrations changes neither whether it succeeds nor the resulting tree, hence no lookup |
| `RouteTable.AddsOneEntry` | router.go:148-152 | insert adds exactly one (position, method) entry; every other entry keeps its handler and its node its name and kind |
| `RouteTable.AddedWellFormed` | router.go:113-152 | insert keeps the shape: closed under parents, nothing below a wildcard, only parameter and wildcard nodes named, every leaf with a handler |
| `RouteTable.WildcardsHandled` | router.go:116-123 | every wildcard node carries a handler, so lookup may return it without looking |
| `RouteTable.ExactKeepsPaired` | router.go:145-147 | an exact registration never breaks the pairing of GET and HEAD at static prefixes |
| `RouteTable.StaticBothOrNeither` | router.go:102-105 | where the GET half of a static prefix is accepted the HEAD half is too: both entries or neither |
| `Router.Router.Descend` | router.go:115-137 | one step of insert: takes or creates the child of the segment's kind, and fails exactly when that child has another name |
| `Router.Router.Walk` | router.go:113-138 | the descent of insert: reaches the end of the segments and grows the tree by exactly the missing nodes, or stops at a name conflict having created none |
| `Router.Router.Reach` | router.go:110-138 | insert's first half with the creation of the root; it fails if and only if a name conflicts, and then nothing has changed |
| `Router.Router.Store` | router.go:139-152 | the handler and the kind are stored at the node reached, nowhere else |
| `Router.Router.Insert` | router.go:109-153 | succeeds if and only if the tree accepts the route, and then the new tree is the old one with this route; on an error no node, handler or flag has changed; which error is reported |
| `Router.Router.Handle` | router.go:66-77 | translation, method check and insertion: the three outcomes and the new tree, unchanged on every error |
| `Router.Router.HandleStatic` | router.go:85-106 | a static prefix adds its GET and HEAD subtree entries together or changes nothing |
| `Router.NextSegment` | router.go:391-406 | the index loop yields the first text of the remaining path, slashes skipped, and the start of what follows it, or -1 |
| `Router.Router.Choose` | router.go:223-239 | the literal child is taken if there is one, else the parameter child with its value appended |
| `Router.Router.AtEnd` | router.go:207-220 | with the path used up: an entry of the kind the last byte asks for, else the wildcard of a closing slash with an empty value |
| `Router.Router.Finish` | router.go:207-249 | where the walk stops: the end of the path, else the wildcard with the rest of the raw path, else the fallback |
| `Router.Router.Visit` | router.go:202-239 | one turn of the loop: the fallback is overwritten by a subtree node with something left below it, then the index moves past one text |
| `Router.Router.Lookup` | router.go:194-250 | the loop over the raw path terminates and returns the node and the parameters of the recursive matcher on texts, for every tree and path |
| `Router.Router.ServeHTTP` | router.go:156-191 | dispatch: handler by method, GET for HEAD, automatic OPTIONS, 405, redirect to the slashed path, 404 |
| `Router.Router.Mount` | server.go:615-619 | the loop that mounts a list of routes on an empty router: it stops at the first error, and gets through exactly when every path translates and the list as a whole registers |
| `RouteMatch.TokensAreParts` | router.go:391-406 | without a trailing slash the texts lookup walks over are the non-empty parts pattern parsing keeps |
| `RouteMatch.RestIsSuffix` | router.go:241 | what a wildcard can capture is always a suffix of the path |
| `RouteMatch.OnTheWalk` | router.go:202-245 | the nodes lookup passes are exactly those that match the texts key by key with no literal sibling hiding a parameter |
| `RouteMatch.DeepestIs` | router.go:203-206 | the fallback is the deepest subtree node on the way with something of the path left below it |
| `RouteMatch.ExactFoundIff` | router.go:202-215 | an exact entry is found if and only if the path has no trailing slash, the entry matches all its texts, and no literal sibling stands where it takes a parameter |
| `RouteMatch.WildcardFoundIff` | router.go:216-243 | a wildcard entry is found if and only if its parent is on the walk and either only the wildcard can take the next text or the path ends there with a slash |
| `RouteMatch.SubtreeFoundIff` | router.go:203-248 | a static prefix answers if and only if it is on the walk with something left below it and it ends the path or nothing deeper answers; one spelled as a wildcard, if and only if the wildcard may take the rest |
| `RouteTheorems.ExactMatchSound` | router.go:194-250 | for a found exact route the parameters are the pattern's names in order with non-empty values, and substituting them rebuilds the path's parts |
| `RouteTheorems.WildcardMatchSound` | router.go:231-243 | for a found wildcard route the texts before it match, names are in order, and the wildcard's value is a suffix of the path, empty exactly where no text is left, at a closing slash |
| `RouteTheorems.MatchFoundIff` | router.go:194-250 | completeness on unambiguous trees: without a trailing slash an exact or wildcard entry is found if and only if it matches |
| `RouteTheorems.MatchIsUnique` | router.go:194-250 | on unambiguous trees at most one exact or wildcard entry matches a path |
| `RouteTheorems.ShadowedIsMissed` | router.go:223-230 | a literal sibling hides an entry that takes a parameter there, whatever follows |
| `RouteTheorems.NoBacktracking` | router.go:223-239 | why completeness needs unambiguous trees: /a/b and /:x/c both register, /a/c matches the second and is not found |
| `RouteTheorems.SubstituteInjective` | router.go:231-233 | different parameter values give different paths |
| `RouteTheorems.BuildThenLookup` | router.go:194-250 | a path built from a registered pattern without a wildcard and values is answered by that pattern with exactly those values, if and only if no literal sibling spells one of them |
| `RouteTheorems.BuildThenLookupTail` | router.go:194-250 | a path built from a registered pattern that ends in a wildcard, values and a tail of texts is answered by it with those values and the joined tail, if and only if no literal sibling spells a value and only the wildcard takes the tail |
| `RouteTheorems.RegisteredWellFormed` | router.go:109-153 | every list of registrations with wildcards last leads to a well-formed tree |
| `DispatchTheorems.RedirectServes` | router.go:165-170 | a redirect leads to the slashed path, which is served for GET and HEAD and never redirected again |
| `DispatchTheorems.HandleRoundTrip` | router.go:66-77 | Handle registers what a printed pattern says, names included |
| `DispatchTheorems.RegisterBuildLookup` | router.go:66-77 | print, register, build a path and request it: the same route answers with the same values, and its own handler serves |
| `DispatchTheorems.RegisterBuildLookupTail` | router.go:66-77 | the same for patterns that end in a wildcard, the last value being the joined tail, served by its own handler |
| `DispatchTheorems.DeliveredIff` | router.go:271-290 | the handler of a matched route sees the parameters found if and only if its path holds a colon or a star or its pattern has no parameter: /{id} matches with a parameter it never sees |
| `DispatchTheorems.BraceFreeDelivers` | router.go:271-290 | a path without braces has every parameter delivered |
| `Patterns.ValidParamName` | router.go:351-361 | accepts exactly the non-empty names of letters, digits and underscores |
| `Patterns.NameChars` | router.go:351-361 | the characters of a name, one by one: letters, digits and the underscore |
| `Patterns.TranslateGinPattern` | router.go:305-348 | the builder loop computes the recursive translation: text, names in order, and every refusal |
| `Patterns.CutParts` | router.go:365-381 | the loop over parts keeps the non-empty ones and turns each into its segment |
| `Patterns.ParsePattern` | router.go:364-388 | fails if and only if a wildcard is not last; otherwise yields the segments of the parts |
| `PatternTheorems.TranslatePrinted` | router.go:305-348 | a printed segment list translates to its canonical spelling with the names in order |
| `PatternTheorems.PatternRoundTrip` | router.go:305-388 | printing any printable segment list, translating and parsing gives the same segments and names |
| `RouteTheorems.WildcardCapturesRaw` | router.go:240-243 | on every path, doubled and closing slashes included, what the wildcard captures is the raw path behind the one slash that closes the text before it |
| `RouteTheorems.WildcardCaptures` | router.go:240-243 | for paths with single slashes: below the root the remaining texts joined by slashes, directly under the root the whole path with its leading slash |
| `DispatchTheorems.AllowIsExact` | router.go:175-188 | a method is on the Allow list of a refused request if and only if the same path is served for that method, GET for HEAD included; the list that allowHeader gathers (lines 253-267) |
| `DispatchTheorems.RouteServes` | router.go:156-181 | a request for a route's own method, found at its position, is served by that route's handler with the parameters found; so is HEAD by the route for GET unless a route for HEAD stands there |
| `DispatchTheorems.NoRouteServes` | router.go:182-190 | where a path is found and no route there has the method, the answer lists exactly the methods registered there, as options for OPTIONS and as a refusal otherwise |
| `DispatchTheorems.ServedIff` | router.go:156-191 | a request is served if and only if a registered route matches its path and method, or for HEAD the method GET |
| `DispatchTheorems.MountedServes` | server.go:615-619 | of a list that mounts, every entry serves the requests found at its position with its own chain |
| `DispatchTheorems.StaticMounts` | router.go:86-98 | a static prefix is mounted at the position its own parts spell; the slash that is added says nothing |
| `DispatchTheorems.StaticLiterals` | router.go:98-99 | for a prefix of plain texts the segments are those texts, and what the file server strips from a path below it leaves the rest with its leading slash |
| `DispatchTheorems.StaticServes` | router.go:100-106 | what HandleStatic registers serves GET and HEAD for every path found at the prefix's position |
| `DispatchTheorems.RedirectIff` | router.go:164-173 | every path: it is redirected if and only if nothing answers it, it has no trailing slash, and its last text ends on a static prefix or above a static wildcard; for the empty path the lookup of / decides |
| `DispatchTheorems.SlashKeepsTexts` | router.go:165-166 | adding the trailing slash does not change the texts walked over, except that the empty path gets an empty text |
| `DispatchTheorems.HandleKeepsIff` | router.go:74-76 | Handle registers what was parsed if and only if no part of the path is spelled as a wildcard with something behind it; otherwise the dropped error makes it a route of the root |
| `DispatchTheorems.HandleBraceFree` | router.go:74-75 | so it does for every brace-free path |
| `DispatchTheorems.HandleRawBraces` | router.go:74-76 | and it does not for /{a...}/b, which becomes the route of the root |
| `PatternParts.TranslatesByParts` | router.go:305-348 | the parts of a translation are the translations of the parts, with the names in order, and only the last part may hold a star |
| `PatternParts.WildcardStays` | router.go:305-377 | translation neither makes nor unmakes a wildcard part before the last |
| `PatternParts.ParsesIff` | router.go:74-75 | a path that translates also parses if and only if no part of it, as written, starts with an opening brace and ends in three dots and a closing brace with something behind it |
| `PatternParts.BraceFreeParses` | router.go:74-75 | so every brace-free path that translates also parses |
| `PatternParts.RawBracesEscape` | router.go:74-75 | and /{a...}/b translates to itself and does not parse |
| `PatternParts.NamesKeptIff` | router.go:305-381 | for a brace-free path the names of the parsed pattern are those the translator collected if and only if every colon and star opens its part and is the only one in it |
| `FormBinder.NumbersBind` | internal/core/form.go:174-185 | decimal texts of 64-bit numbers bind to the number, signed and unsigned; every other number is refused |
| `FormBinder.TagRoundTrip` | internal/core/form.go:155-164 | a tag written as name and default is taken apart into that name and that default |
| `FormBinder.Binder.BindLeaf` | internal/core/form.go:152-205 | one leaf: tag, values or default, kind; it is written, skipped or refused as specified and nothing else changes |
| `FormBinder.Binder.Bind` | internal/core/form.go:110-208 | the recursion terminates on every graph, cyclic ones included, gives `visited` back as it was, and performs exactly the specified writes up to the first refused leaf |
| `FormBinder.OrderIsReached` | internal/core/form.go:115-151 | every leaf that is acted on lies on a path on which no struct type repeats |
| `FormBinder.ReachedIsOrdered` | internal/core/form.go:115-151 | every acting leaf on such a path is acted on |
| `FormBinder.BindsExactly` | internal/core/form.go:110-208 | on success each leaf on such a path holds its first value or its default, and every other content is as before |
| `FormBinder.LeafHolds` | internal/core/form.go:152-205 | what a reached tagged leaf holds, said of the request's values and the tag alone: what the first value of its name means to its kind, or its default, or what it held before; a list of strings holds all values in order |
| `FormBinder.LeafRefuses` | internal/core/form.go:175-205 | a reached leaf whose first text means nothing to its kind makes the binding fail |
| `FormBinder.LeafIgnored` | internal/core/form.go:119-171 | a leaf that is not exported, or has no name in its tag, or - for a name, keeps its content |
| `FormBinder.RefusalStops` | internal/core/form.go:118-208 | a refused leaf of the target stops the binding where it stands in the declaration: fields behind it keep their content, and if nothing else is refused those before it hold their new values and the error is its own |
| `FormBinder.FailsIff` | internal/core/form.go:110-208 | binding fails if and only if a leaf on such a path is refused; the error is that leaf's, and only reached leaves have changed |
| `FormBinder.SiblingsBound` | internal/core/form.go:118-119 | two fields of one struct type are both bound, because the type is taken out of `visited` again |
| `FormBinder.BindValues` | internal/core/form.go:105-114 | the entry point: non-pointers and nil are refused, everything else binds exactly the reached leaves or reports a refused one |
| `HandlerChain.Context.Serve` | router.go:271-289 | a pooled context, whatever state it is left in, is bound to the request, given the chain and run: the events are those of a fresh one |
| `HandlerChain.Context.Reset` | internal/core/context.go:478-492 | every field of a pooled context is as in a new one: nothing of an earlier request is left |
| `HandlerChain.Context.Acquire` | internal/core/context.go:97-103 | a context from the pool, whatever it held, cannot be told from one just made for the same writer and request |
| `HandlerChain.Context.Run` | internal/core/context.go:447-450 | Run on the index machine terminates and has the events and the abort flag of the nested-call specification |
| `HandlerChain.Context.Next` | internal/core/context.go:453-459 | Next, re-entered from any depth, runs everything behind the current handler as specified |
| `HandlerChain.Context.Call` | internal/core/context.go:456 | one handler runs to its end, with the chain behind it inside, if it called Next |
| `HandlerChain.Context.Exec` | internal/core/context.go:453-464 | a handler script on the machine: effects, Next, Abort and looking at the flag, as in the nested-call specification |
| `HandlerChain.RestStarts` | internal/core/context.go:453-459 | handlers start in increasing index order, each at most once, and all of them unless the chain is aborted |
| `HandlerChain.RestKeepsAbort` | internal/core/context.go:462-464 | the flag is raised exactly by an abort and never lowered |
| `HandlerChain.RestQuiet` | internal/core/context.go:455 | nothing starts after an abort |
| `HandlerChain.RestNested` | internal/core/context.go:453-459 | starts and ends are properly nested, every effect belonging to the innermost running handler |
| `HandlerChain.RunTheorem` | internal/core/context.go:447-464 | for all handlers: order, at most once, none after an abort, all without one, nesting |
| `HandlerChain.AllRun` | internal/core/context.go:447-459 | when no handler can abort, each runs exactly once, whether or not handlers call Next |
| `HandlerChain.ScriptCarriedOut` | internal/core/context.go:453-464 | every handler's script is carried out to its end, in order and once, if the handler starts, and no step of it otherwise: its steps up to its first Next, then all that Next runs, which is the rest of the chain unless somebody aborts, then its steps behind; a test of the flag sees the handler's own aborts and those that Next ran |
| `JsonEnvelope.AppendJSONString` | internal/core/response.go:24-44 | the loop appends the encoded string to the buffer |
| `JsonEnvelope.StringRoundTrip` | internal/core/response.go:24-44 | every byte string, encoded and followed by any text, is read back as that string and that text (section 7 of RFC 8259) |
| `JsonEnvelope.EscapeForm` | internal/core/response.go:24-43 | a byte that needs no escape is kept, the others are spelled behind a backslash without capital letters |
| `JsonEnvelope.EncodeHarmless` | internal/core/response.go:28-38 | the encoded form has no control byte and none of the characters <, > and & |
| `JsonEnvelope.WriteStandardized` | internal/core/response.go:91-118 | the buffer built piece by piece is the envelope |
| `JsonEnvelope.EnvelopeRoundTrip` | internal/core/response.go:98-114 | the envelope, followed by anything, is read as one object with the same code, msg, requestId and timestamp, and the data value its bytes stand for |
| `JsonEnvelope.EnvelopeInjective` | internal/core/response.go:98-114 | two envelopes without data and with equal bytes say the same |
| `JsonEnvelope.RefusedReadsNull` | internal/core/response.go:104-108 | data the marshaller refuses is read back as null, with every other member intact |
| `JsonEnvelope.StringReads` | internal/core/response.go:101-111 | an encoded string is a self-delimiting value |
| `JsonEnvelope.NumberReads` | internal/core/response.go:99-113 | a decimal number is a self-delimiting value |
| `Numerals.DecimalRead` | internal/core/response.go:99-113 | a number appended in base 10 reads back as itself |
| `TimeoutWriter.ResponseWriter.WriteHeader` | middleware/timeout.go:27-35 | along the whole chain of wrappers down to the connection: each wrapper passes a header on before its deadline and drops it after |
| `TimeoutWriter.ResponseWriter.Write` | middleware/timeout.go:38-46 | the same for body bytes |
| `TimeoutWriter.ResponseWriter.Flush` | middleware/timeout.go:20-24 | a flush is found by unwrapping and reaches the connection past every wrapper, its deadline or not |
| `TimeoutWriter.Context.WriteHeader` | internal/core/context.go:495-502 | only the first status of a context is written, to whatever chain of writers it has at that moment |
| `TimeoutWriter.Context.Respond` | internal/core/response.go:115-117 | a response method: the header unless one was written, then the body in its writes |
| `TimeoutWriter.Context.ServeFile` | internal/core/context.go:423-440 | a file: header and writes go past the check of the written header, which is noted afterwards |
| `TimeoutWriter.Context.AbortWithStatusJSON` | internal/core/response.go:136-139 | aborts the chain and answers through the context, wrapped or not |
| `TimeoutWriter.Context.Serve` | middleware/timeout.go:61-92 | the middleware around any handlers and any writer, timeouts inside timeouts included: swap the writer, run the handlers, swap back, and answer 503 with the envelope if a write was dropped and no header had gone out |
| `TimeoutWriter.LayerCuts` | middleware/timeout.go:27-46 | whatever a wrapper is around, the writer below gets exactly the calls before the deadline and the flushes, and the two flags say what was dropped and what came through |
| `TimeoutWriter.ServedIs` | middleware/timeout.go:61-91 | for all handlers and every deadline the response is exactly the calls before the deadline and the flushes, and then the 503 envelope if some were cut off and no header was among those delivered |
| `TimeoutWriter.OwnResponse` | internal/core/response.go:115-117 | undisturbed, handlers without inner timeouts deliver exactly the statuses they send, behind an implied 200 if bytes or a flush come first, and exactly the text they write, piece by piece in order |
| `TimeoutWriter.AllNoted` | internal/core/context.go:423-440 | the context's record behind them: whether one responded, and the first response's status until a file replaces it |
| `TimeoutWriter.NeverMixed` | middleware/timeout.go:61-91 | wherever the deadlines fall, handlers that respond through the context, with files, responses of several writes and inner timeouts of any depth, get their own first status with a prefix of their own bytes (without inner timeouts, of the text they wrote, and all of it once the deadline lies behind their last call), or exactly the 503 envelope |
| `TimeoutWriter.OneStatusIff` | middleware/timeout.go:61-91 | for the same handlers at most one status is forwarded wherever the deadline falls, if and only if no call behind the first is a header |
| `TimeoutWriter.PlainAnswer` | middleware/timeout.go:61-91 | responses, statuses and files behind a timeout: the first response's status, a prefix of what all wrote, and all of it once the deadline lies behind the last call |
| `TimeoutWriter.PlainOneStatusIff` | internal/core/context.go:423-440 | without inner timeouts that is so if and only if no file is sent behind another response |
| `TimeoutWriter.MixedIff` | middleware/timeout.go:85-88 | for all handlers, also those that send headers, bytes or flushes around the context: exactly when the 503 is added to a response that had begun |
| `TimeoutWriter.MixedSometimesIff` | middleware/timeout.go:85-88 | exactly which handlers some deadline mixes: those that write bytes before any header and go on, and those that flush and write anything |
| `TimeoutWriter.MixedHappens` | middleware/timeout.go:85-88 | it happens: some bytes around the context, the deadline, then a status |
| `TimeoutWriter.FlushMixes` | middleware/timeout.go:20-35 | it happens with every header sent through the context: past the deadline a flush still starts the response, the status behind it is dropped and the 503 follows |
| `TimeoutWriter.NestedNeverMixed` | middleware/timeout.go:61-91 | one timeout run inside another, wherever their deadlines fall: still one response, the start of one of the three |
| `GzipWriter.Writer.IsCompressible` | middleware/gzip.go:154-182 | the decision is made once, from the content type of that moment |
| `GzipWriter.Writer.WriteHeader` | middleware/gzip.go:105-119 | the status is forwarded once; a compressed response starts its stream and leaves the buffer where it is |
| `GzipWriter.Writer.BeginGzip` | middleware/gzip.go:185-198 | starting the stream drains the buffer into it, unless the header is out |
| `GzipWriter.Writer.Write` | middleware/gzip.go:122-137 | plain bytes pass through, a started stream compresses, otherwise bytes wait until the threshold |
| `GzipWriter.Writer.Flush` | middleware/gzip.go:201-208 | a flush starts the stream when bytes wait, and flushes a started stream |
| `GzipWriter.Writer.Close` | middleware/gzip.go:140-151 | a started stream is closed; waiting bytes go out plain |
| `GzipWriter.Serve` | middleware/gzip.go:52-80 | the middleware around a handler that returns: every operation through the writer, then Close |
| `GzipWriter.RunKeeps` | middleware/gzip.go:105-208 | at every moment what was written is what is in the stream or the plain body, and what waits; at most one status went out; Content-Encoding says which |
| `GzipWriter.ReceivedIs` | middleware/gzip.go:105-208 | for all operations the client can read the response, gets everything but what a late header stranded, compressed exactly when Content-Encoding was set, with at most one status |
| `GzipWriter.StatusIs` | middleware/gzip.go:105-137 | for all operations: 200 is forwarded if those before the first header start the stream under a type worth compressing at the first write, otherwise the first header's status if there is one; and exactly when the answer is compressed |
| `GzipWriter.FlushSendsAll` | middleware/gzip.go:201-208 | a flush at any moment leaves nothing waiting: all that was written is with the client, in a stream flushed behind it or as plain bytes, except what a late header stranded |
| `GzipWriter.ParametersIgnored` | middleware/gzip.go:167-169 | parameters behind a media type change nothing |
| `GzipWriter.JsonCompressed` | middleware/gzip.go:170-178 | the library's own JSON responses, which name their charset, are worth compressing |
| `GzipWriter.ImagesSent` | middleware/gzip.go:170-180 | images are not, other than SVG |
| `GzipWriter.StrandsNothingIff` | middleware/gzip.go:105-151 | the body is conserved if and only if no header reaches the writer while bytes wait in its buffer |
| `GzipWriter.ConservedIff` | middleware/gzip.go:105-208 | the same in the caller's terms: bytes are lost if and only if a header comes behind some written bytes, fewer than the threshold and not flushed, under a content type compressible at the first write |
| `GzipWriter.HeaderFirstConserves` | middleware/gzip.go:105-208 | with the status before the first write the client reads exactly what was written |
| `GzipWriter.LateHeaderLoses` | middleware/gzip.go:105-119 | the loss is real: any text below the threshold, written before the status, never arrives |
| `Metrics.Collector.Stat` | middleware/metrics.go:332-349 | the counters of a route or group are looked up, or created and stored |
| `Metrics.Collector.RecordRoute` | middleware/metrics.go:307-329 | route and group counters in the order of the source |
| `Metrics.Collector.Handle` | middleware/metrics.go:107-165 | one request, panicking or not, performs exactly the atomic operations of its program, in order |
| `Metrics.ExecAdds` | middleware/metrics.go:332-349 | one atomic operation adds to every counter exactly what it says, also when it creates the counters |
| `Metrics.EveryCountKept` | middleware/metrics.go:107-165 | under every interleaving every counter reads the sum of what the requests added to it: racing first uses of a route or group lose nothing |
| `Metrics.AlwaysBalanced` | middleware/metrics.go:112-120 | at every moment requests are samples plus requests in progress, the gauge is the number of running handlers, and 5xx errors never exceed the 5xx class |
| `Metrics.AtRest` | middleware/metrics.go:112-159 | when all requests have ended: nothing in flight, the five classes add up, 5xx errors are the 5xx class, and the requests no protocol counts are the panicked or unknown-protocol ones |
| `Metrics.CountersAtRest` | middleware/metrics.go:107-165 | when all requests have ended every counter reads exactly what each request, looked at alone, owes to it: the totals, each status class, each protocol, and each route and group with its own requests, time and 5xx errors |
| `RateLimiter.Limiter.Allow` | middleware/ratelimit.go:96-135 | whitelist, table bound, bucket: the answer, the new table and the rejected counter |
| `RateLimiter.Limiter.RetryAfter` | middleware/ratelimit.go:143-158 | the wait in whole seconds, 0 for unknown keys and disabled limits |
| `RateLimiter.Limiter.Cleanup` | middleware/ratelimit.go:161-170 | removes exactly the buckets idle for more than ten intervals, in whatever order they are visited |
| `RateLimiter.AllowedIff` | middleware/ratelimit.go:96-135 | one call, said of what the key could spend: allowed if and only if whitelisted, or there is a rate, a bucket or room for one, and a token; then the token is spent, a refusal is counted, and no other key is touched |
| `RateLimiter.TableBounded` | middleware/ratelimit.go:108-113 | the table never holds more keys than it may, in any run |
| `RateLimiter.RetryAfterTells` | middleware/ratelimit.go:143-158 | what RetryAfter tells a key is the least whole number of seconds after which a call of Allow succeeds; a key without a bucket is told 0 |
| `RateLimiter.RejectedCounts` | middleware/ratelimit.go:110-134 | the counter holds exactly the refused calls of any run |
| `RateLimiter.SweepingUnobserved` | middleware/ratelimit.go:96-170 | while the table has room for a key, every Allow and RetryAfter answer for it is the one its own never-swept bucket would give |
| `RateLimiter.UnobservedIff` | middleware/ratelimit.go:161-170 | sweeping cannot be observed if and only if an idle key is kept for at least one second, an interval of at least 100 ms |
| `RateLimiter.RateBound` | middleware/ratelimit.go:96-135 | in any span of time a key is granted at most its burst and the tokens of that span, table full or not |
| `RateLimiter.SweepIntervalIff` | middleware/ratelimit.go:161-170 | that bound survives sweeping if and only if the interval is at least 100 ms; below it a key gets twice its burst |
| `ConcurrencyLimit.Limiter.TryAcquire` | middleware/concurrencylimit.go:25-40 | the compare-and-swap loop, with any operations of others in every gap between its own, ends with a slot or a refusal, each of its operations a step of the system |
| `ConcurrencyLimit.Limiter.Release` | middleware/concurrencylimit.go:43-45 | gives one slot back |
| `ConcurrencyLimit.SlotsCounted` | middleware/concurrencylimit.go:25-45 | with a positive limit, under every interleaving: the counter is the number of requests holding a slot, within 0 and the limit, and every refusal was counted |
| `ConcurrencyLimit.FreeAtRest` | middleware/concurrencylimit.go:89-90 | once all requests have ended, by return or panic, the counter is 0 |
| `ConcurrencyLimit.RefusedWhenFull` | middleware/concurrencylimit.go:30-35 | a refused request read a full limiter: at its load as many requests held a slot as the limit allows |
| `ConcurrencyLimit.FailedSwapBlames` | middleware/concurrencylimit.go:36-38 | a swap fails only because another request took or gave back a slot since the load |
| `ConcurrencyLimit.UnlimitedDrifts` | middleware/concurrencylimit.go:26-45 | without a limit nothing is counted on the way in while every release counts down |
| `ConcurrencyLimit.CounterSoundIff` | middleware/concurrencylimit.go:25-45 | the counter never goes below 0 if and only if there is a limit |
| `CertificateCache.Provider.GetCertificate` | listener.go:34-56 | the order of Stat, comparison, load and store, with the files changing in between |
| `CertificateCache.CallIsFresh` | listener.go:34-56 | a cached answer is what loading would have given from the certificate as of the first Stat and the key as of the second; a failed reload leaves the cache alone; the cache stays coherent |
| `CertificateCache.RunCoherent` | listener.go:34-56 | the cache is coherent after every run in which each rewrite gives its file a time it never had |
| `CertificateCache.HitIsFresh` | listener.go:46-48 | in every such run a hit is fresh |
| `CertificateCache.OneMoreReload` | listener.go:46-56 | while the files rest every call serves what loading them gives, and from the second call on from the cache: a change between Stat and load costs one reload |
| `CertificateCache.NextHitsIff` | listener.go:46-55 | behind a load the next quiet call is a hit if and only if both files still have the times they had at the two Stats |
| `CertificateCache.RewriteSeenIff` | listener.go:46-48 | after a quiet load, a rewrite of either file is served by the next quiet call, whatever the contents parse to, if and only if it changes the file's time or leaves its content alone |
| `CertificateCache.SameTimeServesStale` | listener.go:46-48 | a rewrite under the time the cache was loaded under: the old certificate is served |
| `RouteGroups.BuiltIs` | route.go:67-90 | a group has the prefixes from the root to it, and the middleware its parent had when it was made followed by its own additions |
| `RouteGroups.FlattenYields` | route.go:67-100 | for every history flatten lists every registered route exactly once, with the path and middleware promised at the moment of its registration |
| `RouteGroups.OwnInOrder` | route.go:67-75 | a group holds its own routes in the order of their registration, each as promised at its moment |
| `RouteGroups.KidsInOrder` | route.go:83-90 | a group holds exactly the subgroups that calls on it made, in the order they were made |
| `RouteGroups.FlattenOrder` | route.go:93-100 | flatten lists a group's own routes first and all of an earlier subgroup before all of a later one |
| `RouteGroups.LaterCallsOnlyAdd` | route.go:67-100 | later calls, on any group, never alter a listed route; they add as many as they register |
| `GroupBuilder.Append` | route.go:72-79 | the builtin append: in place within the capacity, else into a new array; the old items stay |
| `GroupBuilder.RouteGroup.Register` | route.go:67-75 | the route gets middleware in an array of its own; all groups and routes stay what the history promises |
| `GroupBuilder.RouteGroup.Use` | route.go:78-80 | middleware may grow in place, and no other group and no route sees it |
| `GroupBuilder.RouteGroup.SubGroup` | route.go:83-90 | the subgroup starts from a copy of prefix and middleware that it shares with nobody |
| `GroupBuilder.RouteGroup.Flatten` | route.go:93-100 | the recursion over the objects returns the specified list |

## Left out

- Server start-up, listeners, signals, shutdown, configuration, health and error types: wiring with easy claims only.
- The other middleware (CORS, security headers, request id, body limit, validation, access log, hooks, recovery, manager), static files, proxy and pprof: header setting or foreign calls.
- Route nodes keep no `literal` and no `wildcard` field: the source writes them and never reads them.
- Router.Router.AllowHeader: its meaning is `DispatchTheorems.AllowIsExact`; the model gives the set of methods, not the sorted and joined text.
- Router.Router.ServeHTTP: the action taken; how the fallback handlers write their bodies and the pooled parameter buffer are not modelled.
- Router.Router.HandleStatic: the file server behind a static prefix is a value that remembers what it strips.
- Serving while registering: the router has no lock and neither does the model; registration comes first.
- FormBinder: reflection is a finite table of types and fields with 64-bit number kinds; narrow kinds, which the source truncates, are left out, and strconv.ParseFloat is a parameter.
- FormBinder.BindValues: reading and limiting the request body before binding is not modelled.
- HandlerChain: handlers are finite scripts of effects, Next, Abort and tests of the flag; panics in handlers are left out, and what handlers write to the other fields of the context is not seen by the chain.
- JsonEnvelope.StringRoundTrip: the reader refuses surrogate pairs, which the encoder never writes, and treats bytes as characters without checking that they are valid UTF-8.
- JsonEnvelope.EnvelopeRoundTrip: json.Marshal is the bytes of a value that reads as something; the reader takes no white space between tokens, which the encoder never writes.
- JsonEnvelope: numbers are unbounded, the source appends 64-bit ones; the emptiness test of the data argument by reflection is part of the argument.
- TimeoutWriter and GzipWriter: handlers that panic, since neither middleware restores the writer on that path.
- TimeoutWriter: deadlines are counted in calls and every combination of inner and outer ones is covered, real time is not modelled; a hijack through Unwrap hands the connection itself to the handler and is not an operation.
- TimeoutWriter.Context.Serve: takes the message after its default text has been filled in.
- GzipWriter: compression is a sequence of pieces that can be taken apart again; the Accept-Encoding test, pooling of compressors, write errors and a Content-Encoding set by the handler itself are left out.
- Metrics: 64-bit wrap-around of the counters, the external sink, and the snapshot functions that read the counters; the status, route, group and duration of a request are fixed when it arrives instead of when its handler ends, which no other request can see.
- RateLimiter: time and tokens are real numbers; the bucket is a standard token bucket with rate and burst `qps`; parsing of addresses and networks, an injected failing bucket constructor, the message and the 429 response are left out.
- RateLimiter.SweepingUnobserved: asks for room in the table, because a full table refuses new keys by design.
- ConcurrencyLimit: 64-bit wrap-around and the 503 response of a refused request.
- CertificateCache: key pair parsing is a parameter; calls are serialised by the mutex, so one call runs at a time; times are numbers that are only compared for equality.
- GroupBuilder: the `routes` and `groups` slices are sequences, since only the middleware slices are ever copied from one group to another.
- GroupBuilder.RouteGroup.Register: the seven shorthands for the methods are calls of it and are left out.
