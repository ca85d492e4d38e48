# A Dafny model of the connect.md repository

This project models the parts of connect.md whose correctness is hard to see from the code, and proves what they
promise. Run `dafny verify dfyconfig.toml` to check it.

**Text extraction** (`Text`, `Utf8`, `BoundedText`, `Lines`, `DocxText`, `PdfOcr`). Uploaded DOCX and PDF files become
text within a byte budget. The code streams: it strips and joins on the fly, keeps trailing white space apart in case
more text follows, and gives up as soon as the budget is exceeded. The model runs the same loops and proves that they
return exactly what "concatenate, strip, measure" would, for nested tables and merged cells, and for every way a file of
octets can be split into reads, a split UTF-8 sequence (sections 3 and 4 of RFC 3629) included.

**Source-witness analyser** (`PyAst`, `PySemantics`, `Folding`, `HelperCheck`, `ApiWalk`, `ApiWalker`, `WitnessRuns`,
`WitnessSoundness`, `WitnessCustody`, `WitnessLimits`, `WitnessStale`, `RouteMatching`). An abstract interpreter reads
test functions and claims that a test sends a request to a route and asserts on its response. `PySemantics` and
`WitnessRuns` give the fragment a concrete semantics, with any interleaving of outcomes; every call of a statement logs
the objects it is handed. Two families of claims are proved about every run. `WitnessSoundness`: requests were made, and
attributed assertions check what they returned. `WitnessCustody`: between the call and the assertion nothing else was
handed the response, which is what the taint, alias and invalidation rules are for. Each holds under a condition on the
body. That of the second is read off the walk and a sight of the body: what functions lead to, and what was put within
reach of later calls. There is a least sight (`WitnessCustody.OverviewLeast`), and it decides
(`WitnessCustody.TrackedByLeast`). Statement by statement, in the sight of the state it runs in, the condition is exact;
`WitnessStale` and `WitnessLimits` give the bodies on which the code misses it. The runs rest on these assumptions:

- An attribute may hold whatever its object holds, as a bound method does, except for the names in
  `Context.world.inert`, a parameter of every theorem that stands for attributes giving plain data (`status_code`, `ok`,
  `text`).
- A function reads the variables that it mentions when it runs. A lambda is a value with these variables and the values
  of its defaults; `Context.world.functions`, another parameter, says what each function in scope mentions. Functions
  do not rebind variables of the test.
- A call, other than `x.json()`, and an `await` are handed what their receiver, callee and arguments hold, and what is
  behind the functions among these, through any number of functions that mention others. What was given a function may
  call it at any later call. Operators, comparisons, subscripts and f-strings hand nothing over.
- An assertion is reached before the calls inside it are made, so that `assert f(reply)` itself checks an untouched
  response, and what follows it does not.

**Router inventory** (`RouterInventory`, `RouterWalker`, `RouterSilence`, `RouterForeign`, `RouteConstants`). The routes
an application serves, found by resolving aliases across modules and walking an include graph that may be cyclic. The
specification is the set of include paths, and the walk is silent exactly on applications that are clean.
`RouterForeign` compares the records with everything that is declared, on the application and on routers, by whatever
module. The constants that prefixes are made of come from a `while changed` loop; it ends exactly when the assignments,
read as equations, have a solution.

**Source distribution** (`SourcePaths`, `SourceManifest`, `SourceSidecar`, `SourceArchive`, `SourceDistribution`,
`SourceScope`). An exporter and a strict verifier. JSON, gzip, tar, SHA-256, Unicode tables and the search for secrets
are parameters; the round trips of the codecs are hypotheses where they are needed, and only for values the exporter
produces. Everything except the allowlist itself is proved for any allowlist, collision key and total order of paths
(`SourcePaths.Rules`); `SourcePaths.SourceOrder` shows that the repository's own rules qualify. `SourceScope` is about
those rules: what the allowlist admits, and what becomes of a verified archive that is written out.

**Page-source scanner** (`Substrings`, `JsLexer`, `JsTokens`, `JsBrackets`, `JsScan`), **anchor order** (`AnchorOrder`)
and **discovery strings** (`Discovery`, `StringBindings`). A lexer, bracket matching, scoping by depth, a greedy
subsequence search, a worklist, and a loop over constants that may be f-strings.

**Two protocols** (`WriteProtocol`, `SessionProtocol`). The client's retry after a lost acknowledgement, with any
behaviour of the network and of other clients; and what becomes of transaction, files and gate on every way out of a
request.

Places where the code does less than one might expect are kept as they are:

- A branch decided statically is walked on copies, so a name it reassigns leaves the analyser with a stale value
  (`WitnessStale.DecidedBranchGoesStale`, `WitnessStale.DecidedBranchReplaces`).
- The analyser loses sight of a response in bound methods, defaults of lambdas, awaited, summed and annotated aliases, in
  aliases and calls of decided branches, in assigned calls, lambdas, assertions, conditions, tuples and bare requests
  (`WitnessLimits.LostAlias` and the lemmas after it). It also does so where functions lead to the response: through
  helpers that mention helpers, in helpers passed on, stored in a variable, or called inside other calls or undecided
  branches, and in lambdas made or given away before a name is bound (`WitnessLimits.HelperReaches` and the lemmas after
  it).
- `_route_matches` can match a descriptor and not the paths it stands for, exactly when a segment fails a probe with one
  filling (`RouteMatching.StableExactly`); `{a}m{b}` and `{a}{b}` do (`RouteMatching.TwoParametersUnstable`).
- A route that one module declares on another module's router or application, a router that it includes there, and a
  route declared on the application with another verb or without a constant path are missing from the inventory,
  silently (`RouterForeign.DecoratorExactly`, `RouterForeign.DirectExactly`, `RouterForeign.CompleteExactly`).
- The verifier, which takes its three files from anyone, accepts a file that is the directory of another; the archive
  then cannot be unpacked (`SourceScope.ClashVerified`). No well-formed Git tree lists such files, so an export has
  none.
- `ordered_anchor_positions` does not look at the order when a label is used twice
  (`AnchorOrder.RepeatedLabelHidesOrder`).
- `_string_bindings` never ends on a cycle of references that adds text, as of two f-strings that mention each other
  (`StringBindings.CycleNeverSettles`), nor on most cycles of copies (`StringBindings.CopyCycleExactly`).

## Model

| member | source | states |
|---|---|---|
| `Text.StripUnique` | apps/api/app/docx_text.py:15-40 | `strip` is determined by its result: blanks, a trimmed core and blanks have that core as stripped form |
| `Utf8.DecodeInTwoCalls` | apps/api/app/pdf_ocr.py:20-57 | feeding the incremental decoder in two calls, with what it kept from the first put before the second, equals decoding at once, malformed input included |
| `Utf8.DecodeExact` | apps/api/app/pdf_ocr.py:20-57 | a file is the UTF-8 encoding of a text exactly when the decoder, told that nothing follows, yields that text and keeps nothing |
| `Utf8.SizeIsEncodedLength` | apps/api/app/docx_text.py:15-40 | the size that the budgets count is the number of octets of the encoding |
| `BoundedText.StripExtends` | apps/api/app/docx_text.py:15-40 | how the stripped text and the white space held back change when a chunk is appended |
| `BoundedText.Absorb` | apps/api/app/docx_text.py:21-38 | one chunk: exceeds exactly when the stripped text so far is over the budget; otherwise what is collected is the stripped text, what is pending the trailing blanks, or only their size once they no longer fit, and both together stay within the budget |
| `BoundedText.BoundedJoin` | apps/api/app/docx_text.py:15-40 | `_join` returns `separator.join(parts).strip()` exactly when its UTF-8 length fits and fails otherwise, and never holds more than the budget |
| `DocxText.Blocks` | apps/api/app/docx_text.py:43-57 | the texts of a container with tables nested to any depth, each bounded: an inner failure happens only where the whole is over the budget anyway |
| `DocxText.TableBlocks` | apps/api/app/docx_text.py:43-57 | the rows that have content, each its cells joined; a cell that merged positions share is counted once in the table |
| `DocxText.RowBlocks` | apps/api/app/docx_text.py:43-57 | the cells of a row that the table has not met before, each its own blocks joined, tables inside it included |
| `DocxText.HeaderFooterBlocks` | apps/api/app/docx_text.py:83-104 | for each section the headers or footers in force, inherited ones included, each part shown once |
| `DocxText.AddAll` | apps/api/app/docx_text.py:107-127 | the running byte count of `add` is that of the non-empty stripped lines joined by newlines, and it fails exactly when that exceeds the budget |
| `DocxText.HeavyPart` | apps/api/app/docx_text.py:15-57 | a part that is too heavy makes everything joined from it too heavy |
| `DocxText.ExtractDocxText` | apps/api/app/docx_text.py:107-127 | extraction under a budget is extraction without one, exactly when that result fits; otherwise it fails |
| `PdfOcr.DecodeMore` | apps/api/app/pdf_ocr.py:20-57 | one read: what is decoded and what the decoder keeps are those of all octets so far, or the file is not UTF-8; at the end the text is that of the file |
| `PdfOcr.ReadOcrText` | apps/api/app/pdf_ocr.py:20-57 | for every file and every split into reads: the stripped text, or a failure that the file explains (too long, not UTF-8, over the budget); never more than the budget held |
| `PdfOcr.SplitIndependent` | apps/api/app/pdf_ocr.py:20-57 | two runs on one file agree, and succeed exactly when the file is within the raw limit, valid UTF-8 and fits once stripped |
| `PdfOcr.ReadPages` | apps/api/app/pdf_ocr.py:90-123 | the newline-join of the non-empty pages, within the budget, or the error of the first page that cannot be read or does not fit, all pages before it having been read and fitting |
| `PdfOcr.ExtractPdfOcr` | apps/api/app/pdf_ocr.py:60-123 | encryption, page count and limit are checked in this order, each with its own error and no other; then the result is the document or the error of the first page that stops the loop |
| `PdfOcr.StopIsFinal` | apps/api/app/pdf_ocr.py:90-123 | a page that stops the loop rules out every reading of the pages that fits |
| `PdfOcr.ExtractionExact` | apps/api/app/pdf_ocr.py:90-123 | for readable pages it succeeds exactly when the newline-join of the non-empty pages fits, and returns that join |
| `Folding.PathFromTextLegal` | tools/platform_route_test_ownership.py:142-157 | a path value starts with a slash, has no `#`, counts its slots, and each slot of its path begins a segment and is followed by the end, a slash or a dot |
| `Folding.LiteralLegal` | tools/platform_route_test_ownership.py:186-261 | every path value that `_literal` returns, at any depth, is legal in that sense |
| `Folding.LiteralSound` | tools/platform_route_test_ownership.py:164-261 | if the value table covers the variables, the folded value covers the run-time value of the expression, each slot standing for any text |
| `PySemantics.FlowSound` | tools/platform_route_test_ownership.py:469-525 | every earlier object that a value holds is held by a variable that flows into the expression, through attributes unless they are assumed to give plain data and through the variables that functions read; and the variables that it captures are among those that the expression leads to |
| `PySemantics.FlowComplete` | tools/platform_route_test_ownership.py:469-525 | and every object of a variable that flows in, by value or from behind functions, is held by some value of the expression |
| `PySemantics.LateComplete` | tools/platform_route_test_ownership.py:469-525 | and every variable that the expression leads to is captured by some value of it |
| `HelperCheck.AliasClosureIsLeast` | tools/platform_route_test_ownership.py:789-870 | the alias set is closed under assignments of aliases and is the least such set that holds the parameters |
| `HelperCheck.ComputeAliases` | tools/platform_route_test_ownership.py:789-870 | the fixpoint loop over a helper's assignments computes that least set |
| `HelperCheck.PassesInUniverse` | tools/platform_route_test_ownership.py:725-768 | the pairs of helper and parameters that calls lead to come from a finite universe, so the recursion ends for mutually recursive helpers |
| `HelperCheck.HelperCheckExact` | tools/platform_route_test_ownership.py:789-870 | the check accepts exactly when along every chain of alias-passing calls each pair is clean, each call resolves and no pair repeats |
| `ApiWalker.Walker.Walk` | tools/platform_route_test_ownership.py:1006-1307 | walking a block in place leaves the tables that the functional walk computes, and stops where it stops |
| `ApiWalker.Walker.WalkOne` | tools/platform_route_test_ownership.py:1006-1307 | the same for one statement: assignment, assertion, bare call, return, and branches decided or not |
| `ApiWalker.Walker.BindTarget` | tools/platform_route_test_ownership.py:1006-1307 | an assignment of a request or of another value updates values, responses and requests together |
| `ApiWalker.Walker.RecordAssertion` | tools/platform_route_test_ownership.py:561-571 | an assertion is added to the requests whose response it checks directly, and to no other |
| `ApiWalker.Walker.PoisonNames` | tools/platform_route_test_ownership.py:715-722 | every name assigned under undecided control flow becomes dynamic |
| `ApiWalker.Walker.BareCall` | tools/platform_route_test_ownership.py:888-942 | a bare call forgets the responses that it can reach, or stops the walk |
| `WitnessRuns.NoReturn` | tools/platform_route_test_ownership.py:642-686 | a block that passes the control-flow check cannot return early, on any run |
| `WitnessRuns.UnaffectedNames` | tools/platform_route_test_ownership.py:642-686 | a block that passes the control-flow check assigns no watched name |
| `WitnessSoundness.CheckSound` | tools/platform_route_test_ownership.py:561-571 | an assertion attributed by the walk checks, in the run, the object its request returned |
| `WitnessSoundness.DoSound` | tools/platform_route_test_ownership.py:888-942 | after a bare call the remaining evidence still describes the run; that what remains was not handed over is `WitnessCustody.DoGuards` |
| `WitnessSoundness.UndecidedSound` | tools/platform_route_test_ownership.py:642-722 | whichever branch an undecided `if` takes, the poisoned tables describe the run |
| `WitnessSoundness.AttributionSound` | tools/platform_route_test_ownership.py:1006-1307 | on every run, wherever an attributed assertion is reached, the variable it checks holds the object returned by the call at the request's position, with its verb and a path that its folded path covers; decided branches may reassign only names the tables are indifferent to |
| `WitnessSoundness.EvidencePerformed` | tools/platform_route_test_ownership.py:1006-1307 | on every run that does not raise, every recorded request was made and every attributed assertion was reached |
| `WitnessCustody.BareCallForgets` | tools/platform_route_test_ownership.py:888-942 | a bare call that does not stop the walk names no tainted name, and no name is left of a response that it names or that its callee captures |
| `WitnessCustody.DoGuards` | tools/platform_route_test_ownership.py:888-942 | after a bare call that mentions the holders it receives from, by value or by way of functions, responses still known have not been handed to it, and only tainted names and names of the same response hold them |
| `WitnessCustody.OtherGuards` | tools/platform_route_test_ownership.py:469-525 | the same after a tracked assignment of something other than a request, the target being tainted where it may hold a response |
| `WitnessCustody.BlockKeeps` | tools/platform_route_test_ownership.py:642-686 | on every run, a block that passes the control-flow check, and in which no holder is behind functions, awaited or in an annotated value, hands over no known response and lets no unwatched name hold one |
| `WitnessCustody.CustodyKept` | tools/platform_route_test_ownership.py:1006-1307 | on every run of a body that is tracked under a sight that has enough of it, between the call that returned a new object and an assertion attributed to it, no call was handed that object, by value or by way of any functions |
| `WitnessCustody.OverviewLeast` | tools/platform_route_test_ownership.py:1006-1307 | for every body and state there is a least sight that has enough |
| `WitnessCustody.TrackedByLeast` | tools/platform_route_test_ownership.py:1006-1307 | and a body is tracked under some such sight exactly when it is under the least |
| `WitnessCustody.AssignExact` | tools/platform_route_test_ownership.py:469-525 | where responses are new and tainted names hold one that is still known, an assignment, of a request or of anything else, keeps custody on every run exactly when the alias roots show what flows, from behind functions too, and no call in it receives from a holder |
| `WitnessCustody.DoExact` | tools/platform_route_test_ownership.py:888-942 | in the same states, a bare expression keeps custody of the responses that are left exactly when every holder it receives from, by value or by way of functions, is mentioned by some name of its response in the call or in the helper called |
| `WitnessCustody.CheckExact` | tools/platform_route_test_ownership.py:561-571 | in the same states, an assertion keeps custody exactly when no call in it receives from a holder, by value or by way of functions |
| `WitnessCustody.TestExact` | tools/platform_route_test_ownership.py:1214-1250 | the same of the condition of an `if` |
| `WitnessCustody.BranchExact` | tools/platform_route_test_ownership.py:642-686 | in the same states, a statement that passes the control-flow check keeps custody on every run exactly when no holder is behind the functions in it, awaited, received in the defaults of a lambda or in an annotated value |
| `WitnessCustody.ExposureBreaks` | tools/platform_route_test_ownership.py:888-942 | a call that receives a response by any variable that holds it breaks custody of it |
| `WitnessLimits.LostAlias` | tools/platform_route_test_ownership.py:469-525 | for every expression that the response flows into and whose alias roots miss it: bound to a name and handed on, it is still checked as untouched |
| `WitnessLimits.BoundMethod` | tools/platform_route_test_ownership.py:469-525 | `x = reply.close` is one, and `x()` then hands the response over |
| `WitnessLimits.LambdaDefault` | tools/platform_route_test_ownership.py:490-508 | `x = lambda r=reply: r` is one, and `x()` hands the response over |
| `WitnessLimits.AwaitedAlias` | tools/platform_route_test_ownership.py:469-525 | `x = await reply`, which runs code of the response, has no alias roots either |
| `WitnessLimits.SummedAlias` | tools/platform_route_test_ownership.py:469-525 | a sum is one |
| `WitnessLimits.AnnotatedAlias` | tools/platform_route_test_ownership.py:642-686 | an annotated assignment of the response under an undecided `if` passes the control-flow check and leaves an unwatched alias |
| `WitnessLimits.AliasOnCopies` | tools/platform_route_test_ownership.py:1006-1307 | an alias bound in a decided branch is known on the copies only |
| `WitnessLimits.HandedOnCopies` | tools/platform_route_test_ownership.py:1006-1307 | a response handed over in a decided branch is forgotten on the copies only |
| `WitnessLimits.AssignedCall` | tools/platform_route_test_ownership.py:1006-1307 | `x = f(reply)` hands the response over and leaves it in place |
| `WitnessLimits.HandedInLambda` | tools/platform_route_test_ownership.py:888-942 | a response that a lambda argument mentions is not among the names that the call is taken to mention |
| `WitnessLimits.HandedInCheck` | tools/platform_route_test_ownership.py:1112-1126 | `assert f(reply)` hands the response over, and the next assertion is attributed too |
| `WitnessLimits.HandedInTest` | tools/platform_route_test_ownership.py:1214-1250 | so does `if f(reply)` |
| `WitnessLimits.HandedInTuple` | tools/platform_route_test_ownership.py:888-942 | and a call inside a bare tuple |
| `WitnessLimits.HandedToRequest` | tools/platform_route_test_ownership.py:888-942 | and a bare request that sends the response |
| `WitnessLimits.HelperReaches` | tools/platform_route_test_ownership.py:888-942 | a call of any helper that does not mention the response and leads to it through other functions |
| `WitnessLimits.NestedHelper` | tools/platform_route_test_ownership.py:888-942 | as `outer()` does that calls `inner`, which mentions the response |
| `WitnessLimits.FunctionPassed` | tools/platform_route_test_ownership.py:888-942 | `run(helper)`, where `helper` mentions the response |
| `WitnessLimits.CapturedInside` | tools/platform_route_test_ownership.py:888-942 | and a helper that mentions the response and is called in the argument of another call |
| `WitnessLimits.CapturedInBranch` | tools/platform_route_test_ownership.py:642-686 | and one called in an undecided branch |
| `WitnessLimits.FunctionStored` | tools/platform_route_test_ownership.py:469-525 | `x = helper`, then `x()`: the target is not tainted by what the helper mentions |
| `WitnessLimits.LateLambda` | tools/platform_route_test_ownership.py:469-525 | `x = lambda: y`, `y = reply`, then `x()`: the lambda is looked at before `y` names the response |
| `WitnessLimits.LambdaKept` | tools/platform_route_test_ownership.py:888-942 | `f(lambda: y)`, `y = reply`, then `g()`: what was given the lambda may call it later |
| `WitnessLimits.LeaksUntracked` | tools/platform_route_test_ownership.py:1006-1307 | no body of these is tracked under any sight that has enough |
| `WitnessStale.OpenExactly` | tools/platform_route_test_ownership.py:1006-1307 | the entries that stay true whatever constant a variable is given are exactly those the condition on decided branches allows |
| `WitnessStale.RebindUncovers` | tools/platform_route_test_ownership.py:1006-1307 | for every other entry, some assignment in a decided branch leaves the tables as they are and makes the entry false |
| `WitnessStale.DecidedBranchGoesStale` | tools/platform_route_test_ownership.py:1006-1307 | a path reassigned in a decided branch: the walk records a request that a passing run does not make, and attributes its assertion to it |
| `WitnessStale.DecidedBranchReplaces` | tools/platform_route_test_ownership.py:1006-1307 | a response handed over and reassigned in a decided branch: the assertion is attributed and checks something else |
| `RouteMatching.FillCovered` | tools/platform_route_test_ownership.py:186-261 | filling the slots of a path value gives a text that the value covers |
| `RouteMatching.FillSegments` | tools/platform_route_test_ownership.py:1368-1391 | filling slots works inside the segments: their number stays, and a segment with a slot becomes the filling and what followed the slot |
| `RouteMatching.SuffixMatches` | tools/platform_route_test_ownership.py:1380-1388 | a parameter with a suffix matches what has a non-empty text without slash before that suffix |
| `RouteMatching.StableExactly` | tools/platform_route_test_ownership.py:1368-1391 | a segment that matches a descriptor matches every good filling in its place exactly when it does so for the one filling `x` |
| `RouteMatching.SimpleIsStable` | tools/platform_route_test_ownership.py:1368-1391 | literals, `{p}`, segments that begin with a literal, and `{p}` with a literal suffix that begins with no character of `{param}`, are stable |
| `RouteMatching.MatchIsStable` | tools/platform_route_test_ownership.py:386-389 | for routes of stable segments, if the descriptor of a path value matches, so does every filling with non-empty text free of `/ ? # %` and not ending in `.md` |
| `RouteMatching.RouteStableExactly` | tools/platform_route_test_ownership.py:1368-1391 | for a route of any number of segments that plain words can match, matching is stable exactly when every segment is |
| `RouteMatching.OneSegmentExactly` | tools/platform_route_test_ownership.py:1368-1391 | for a route of one segment, matching is stable exactly when the segment is, on paths that the analyser can fold |
| `RouteMatching.TwoParametersUnstable` | tools/platform_route_test_ownership.py:1368-1391 | `{a}m{b}` and `{a}{b}` are not stable |
| `RouterInventory.CanonicalExact` | tools/platform_contract_inventory.py:516-540 | resolution finds exactly the router at the end of the chain of aliases, across modules and cycles, and then reports no error |
| `RouterInventory.TreeSplit` | tools/platform_contract_inventory.py:619-773 | what a router serves is its own routes and what each of its includes serves, prefixes joined and hiding inherited |
| `RouterInventory.CollectErrors` | tools/platform_contract_inventory.py:619-773 | the walk only appends errors: those reported before are a prefix of those after |
| `RouterInventory.CollectSilent` | tools/platform_contract_inventory.py:619-773 | a walk that reports nothing has added exactly the routes at the end of every include path, and no include path meets a router twice or one already active |
| `RouterWalker.InventoryExact` | tools/platform_contract_inventory.py:776-846 | when nothing is reported, the records are exactly the routes declared on the application and, for every mount and include path, verb, joined prefixes and path, hidden if anything on the way is |
| `RouterWalker.InventoryUnambiguous` | tools/platform_contract_inventory.py:564-572 | and then no two include paths serve the same key, and the include graph below every mount is acyclic |
| `RouterSilence.SilentExactly` | tools/platform_contract_inventory.py:575-846 | nothing is reported exactly when the entry module is known, every mount and every router an include path leads to resolves with known, well-formed prefixes and paths, no include path meets a router twice, and no key is served twice |
| `RouterForeign.RecordedExactly` | tools/platform_contract_inventory.py:619-846 | when nothing is reported, a declared route, its mount, the include calls to its router and its decorator standing in any modules, is recorded exactly when the mount stands in the entry module and each of the others in the module of the router it is called on |
| `RouterForeign.DirectExactly` | tools/platform_contract_inventory.py:575-616 | and one declared by a decorator on the application is recorded exactly when it stands in the entry module with one of the five verbs and a constant path |
| `RouterForeign.KeysExactly` | tools/platform_contract_inventory.py:619-773 | and the key of one that is not is in the inventory exactly when a direct route, or one so declared, has it too |
| `RouterForeign.DecoratorExactly` | tools/platform_contract_inventory.py:660-675 | of every decorator of every module: it is recorded exactly when its receiver resolves to a router of the same module and such include calls lead there; unresolved and imported receivers are dropped |
| `RouterForeign.CompleteExactly` | tools/platform_contract_inventory.py:575-846 | everything declared, on the application or on routers, in any module, is recorded exactly when on no router that is reached another module declares a route or mounts a router that leads to one, no other module mounts such a router on the application, and every decorator on the application is one that the walk reads |
| `RouterForeign.ForeignRoutesMissing` | tools/platform_contract_inventory.py:619-773 | an application with a route and a whole router added by another module: both are declared, the inventory is empty, nothing is reported |
| `RouterWalker.Inventory.Canonicalize` | tools/platform_contract_inventory.py:516-540 | the recursion that appends errors finds the specified router and appends the specified errors |
| `RouterWalker.Inventory.CollectRouter` | tools/platform_contract_inventory.py:619-773 | the walk on shared records and errors, with its loops, computes the specified inventory and ends on cyclic graphs |
| `RouterWalker.Inventory.Run` | tools/platform_contract_inventory.py:575-616 | direct routes first, then one walk for each mount: the whole inventory as specified |
| `RouteConstants.StaticMonotone` | tools/platform_contract_inventory.py:127-137 | a constant that is known stays the same when more names are bound |
| `RouteConstants.RouteStringBindings` | tools/platform_contract_inventory.py:140-166 | the loop returns the least solution of the assignments, every value given by one of them, within one pass more than there are names |
| `RouteConstants.LoopEndsIffSolvable` | tools/platform_contract_inventory.py:140-166 | some pass changes nothing exactly when the assignments have a solution |
| `RouteConstants.AssignsOnceSolvable` | tools/platform_contract_inventory.py:140-166 | assigning each name at most once is enough, cyclic references included |
| `RouteConstants.LeastIsSolution` | tools/platform_contract_inventory.py:140-166 | each name is then bound to the value of its right-hand side, and unbound exactly when that has none |
| `RouteConstants.OrderIrrelevant` | tools/platform_contract_inventory.py:140-166 | the order of the statements makes no difference to the result |
| `RouteConstants.TwoValuesNeverSettle` | tools/platform_contract_inventory.py:140-166 | two different constants for one name leave every pass with something to change |
| `SourcePaths.ComponentsJoin` | tools/source_distribution.py:198-211 | splitting a path at slashes loses nothing |
| `SourcePaths.SourceOrder` | tools/source_distribution.py:243-244 | comparing UTF-8 encodings is a total order of paths, different paths never being equal |
| `SourcePaths.SortContents` | tools/source_distribution.py:326 | sorting by path gives a sorted permutation |
| `SourcePaths.SortedUnique` | tools/source_distribution.py:326 | there is only one strictly sorted arrangement |
| `SourceManifest.ReadEntry` | tools/source_distribution.py:529-560 | accepts exactly the JSON of an entry with an allowed path, a regular mode, a size within the bound and a digest |
| `SourceManifest.ReadEntries` | tools/source_distribution.py:526-560 | the loop with its last path, seen keys and running total accepts exactly the JSON of lists that are strictly sorted, free of collisions and within the total |
| `SourceManifest.ReadManifest` | tools/source_distribution.py:481-561 | accepts exactly the payloads of manifests that satisfy every rule, up to the three values Python finds equal to 1 for the version |
| `SourceManifest.DescribesOne` | tools/source_distribution.py:366-386 | a payload stands for one manifest only |
| `SourceSidecar.SidecarRoundTrip` | tools/source_distribution.py:456-459 | the two digests are read back from the sidecar that the exporter writes, for every artifact name |
| `SourceSidecar.SidecarSound` | tools/source_distribution.py:564-584 | an accepted sidecar is two lines, each a digest, two spaces and the expected name |
| `SourceArchive.ParseTree` | tools/source_distribution.py:277-326 | the loop accepts a listing exactly when every record is allowed and regular, none collide and the bounds hold, and returns it sorted |
| `SourceArchive.ListingOrderIrrelevant` | tools/source_distribution.py:277-326 | a permutation of the Git listing is accepted alike and gives the same sequence |
| `SourceArchive.CleanIsFine` | tools/source_distribution.py:587-657 | the checks made round by round, with seen keys and running total, are the checks on the whole |
| `SourceArchive.ArchiveMembers` | tools/source_distribution.py:587-662 | returns the files of the archive exactly when every member passes, none collide, they are strictly sorted and within the bounds |
| `SourceDistribution.VerifyBytes` | tools/source_distribution.py:720-782 | accepts exactly when manifest, digests, sidecar, expectations and members agree |
| `SourceDistribution.CompareAll` | tools/source_distribution.py:759-781 | the loop over members and entries in step accepts exactly when each pair agrees in path, mode, length and digest and holds no secret |
| `SourceDistribution.VerifiedMeans` | tools/source_distribution.py:720-782 | acceptance means pointwise agreement in path, mode, length and digest, on strictly sorted, allowed, collision-free paths within the bounds |
| `SourceDistribution.ManifestDeterminesContent` | tools/source_distribution.py:720-782 | two archives verified against one manifest hold the same files, unless two files share a digest |
| `SourceDistribution.ArchiveCarries` | tools/source_distribution.py:399-415 | the archive of an accepted tree unpacks to exactly the files of the tree |
| `SourceDistribution.ExportVerifiable` | tools/source_distribution.py:429-478 | whatever tree is accepted, what the exporter builds passes every check of the verifier, bound to the commit and both digests |
| `SourceDistribution.ExportDistribution` | tools/source_distribution.py:429-478 | nothing is written that the verifier would reject; with faithful codecs, no secret and an archive within the bound it is written exactly when name, commit and tree are accepted |
| `SourceScope.ValidExactly` | tools/source_distribution.py:198-211 | the path check accepts exactly the short, printable, normalised paths that lead, from every directory, to the file below it that their components name |
| `SourceScope.AllowedExactly` | tools/source_distribution.py:214-240 | the branches of the allowlist come to one rule, valid, listed and not forbidden: the files admitted by name, which the code does not examine, are not forbidden either |
| `SourceScope.InsideExactly` | tools/source_distribution.py:198-211 | the components of one path begin those of another exactly when the first path and a slash begin the second |
| `SourceScope.ArchivePlace` | tools/source_distribution.py:399-415 | a member's whole name leads to its path below the archive's own directory |
| `SourceScope.VerifiedExtracts` | tools/source_distribution.py:587-662 | the files of a verified archive can be written out one after the other exactly when the manifest names no file as the directory of another; then the disk holds each at its own place with its own content, and nothing else |
| `SourceScope.ClashVerified` | tools/source_distribution.py:720-782 | for every list of files that passes the checks and names one as the directory of another, the artifacts built from it verify and the archive cannot be unpacked |
| `SourceScope.ClashListing` | tools/source_distribution.py:587-662 | `docs/a` with `docs/a/b` is such a list of files; Git would not produce it, but archive and manifest can hold it |
| `JsLexer.Lex` | tools/platform_route_test_ui.py:69-151 | the loop computes the specified tokens, on every source |
| `JsLexer.NextAdvances` | tools/platform_route_test_ui.py:69-151 | a token is not empty and ends at most one past the source |
| `JsTokens.QuotedEndIsFirst` | tools/platform_route_test_ui.py:89-116 | a string or template ends at its first quote that no live backslash escapes, or runs to the end, one further after a dangling backslash |
| `JsTokens.RegexEndIsFirst` | tools/platform_route_test_ui.py:117-138 | a regular expression ends, with its flags, at its first live slash outside a character class |
| `JsTokens.LexExact` | tools/platform_route_test_ui.py:69-151 | the token list is the one and only tiling of the source, with white space between, by tokens of the shapes of their kinds |
| `JsTokens.LexLaid` | tools/platform_route_test_ui.py:69-151 | tokens are non-empty, in order, disjoint, with only white space between neighbours, and only the last can end past the source |
| `JsBrackets.Matching` | tools/platform_route_test_ui.py:154-165 | returns the first token that closes the balance to zero |
| `JsBrackets.PositiveInside` | tools/platform_route_test_ui.py:154-165 | from an opening token the balance stays positive up to the match, which is therefore its first return to zero |
| `JsBrackets.PairsNest` | tools/platform_route_test_ui.py:154-165 | two matched pairs are nested or disjoint |
| `JsBrackets.BraceDepths` | tools/platform_route_test_ui.py:168-177 | the loop computes the clamped depth before each token |
| `JsBrackets.DepthIsScope` | tools/platform_route_test_ui.py:168-177 | a token of a body is at the body's depth exactly when no pair of braces inside the body encloses it |
| `JsBrackets.DescribeRanges` | tools/platform_route_test_ui.py:267-304 | collects the bodies of the ordinary top-level `describe` calls |
| `JsBrackets.CaseTokens` | tools/platform_route_test_ui.py:307-365 | collects the test cases at admitted tokens, with their bodies |
| `JsBrackets.CaseScope` | tools/platform_route_test_ui.py:307-365 | an accepted case is enclosed by no pair of braces at all, or is directly in the body of a top-level `describe`, in no braces between |
| `JsScan.ScanCase` | tools/platform_route_test_ui.py:467-556 | the loop computes the specified reads, assertions, rebindings and validity |
| `JsScan.InvalidExactly` | tools/platform_route_test_ui.py:467-556 | a body is rejected exactly when some token outside the recognised statements is forbidden at the top of the body, or there assigns to a name of the test machinery or, after a read, calls something else |
| `JsScan.CaseAnchored` | tools/platform_route_test_ui.py:368-464 | the reads and assertions of every case body are exact slices of the source, each list strictly increasing, and no read overlaps an assertion |
| `AnchorOrder.RequireOrder` | tools/platform_contact_durability.py:82-94 | no error exactly when some strictly increasing choice of positions exists for all markers; otherwise the anchor reported is the first that cannot be placed |
| `AnchorOrder.GreedyStep` | tools/platform_contact_durability.py:82-94 | taking the first occurrence never loses a placement of the rest |
| `AnchorOrder.OrderedAnchorPositions` | tools/platform_checker_source.py:114-139 | which anchors are missing; and it objects to the order exactly when all are found, labels are distinct and first occurrences do not strictly increase |
| `AnchorOrder.FirstsAreOrder` | tools/platform_checker_source.py:114-139 | first occurrences that strictly increase are a choice that the greedy search finds |
| `AnchorOrder.RepeatedLabelHidesOrder` | tools/platform_checker_source.py:131-139 | with a label used twice, anchors found in the wrong order pass, though no increasing choice exists |
| `StringBindings.TextDepends` | tools/platform_checker_ast.py:12-35 | among tables that bind no more than some names, a constant, f-string or not, depends only on the names whose text it contains there |
| `StringBindings.KeepsValue` | tools/platform_checker_ast.py:38-65 | a name whose references are ordered by rank keeps its value after as many passes as its rank |
| `StringBindings.SettlesExactly` | tools/platform_checker_ast.py:38-65 | with one assignment for each name, none of them bound from the start, and text of their own in f-strings with fields, some pass changes nothing exactly when the references among the names that can be bound have no cycle |
| `StringBindings.RankedSettles` | tools/platform_checker_ast.py:38-65 | without such a cycle the passes settle, within as many as there are names, whatever is bound from the start |
| `StringBindings.FieldRankedSettles` | tools/platform_checker_ast.py:38-65 | the same when cycles are of plain references between names not bound from the start |
| `StringBindings.PlainSettles` | tools/platform_checker_ast.py:38-65 | without f-strings one assignment for each name is enough |
| `StringBindings.StringTable` | tools/platform_checker_ast.py:38-65 | the loop ends whenever some pass changes nothing, at most one pass later, with a table that every statement leaves as it is |
| `StringBindings.CycleNeverSettles` | tools/platform_checker_ast.py:38-65 | on a cycle of references of any length, through f-strings, sums and names, one value that adds text makes every pass change something, whatever is bound from the start |
| `StringBindings.TwoFieldsNeverSettle` | tools/platform_checker_ast.py:38-65 | two f-strings that mention each other are one, though each name is assigned once |
| `StringBindings.CopyCycleExactly` | tools/platform_checker_ast.py:38-65 | on a cycle of copies, names or f-strings of one field, the texts go round: the loop ends exactly when all but the first are equal |
| `StringBindings.FieldCopiesSettle` | tools/platform_checker_ast.py:38-65 | it does when all are f-strings of one field and none is bound from the start |
| `Discovery.DiscoveryStrings` | tools/platform_checker_ast.py:68-108 | the worklist ends with the functions reachable from the roots present, the union of their lower-cased strings, and the roots missing |
| `Discovery.ClosedHoldsAll` | tools/platform_checker_ast.py:89-107 | a set that holds the roots and is closed under calls holds every reachable function |
| `WriteProtocol.HandleAllValid` | examples/agent-clients/agent_client.py:1474-1510 | with an idempotent server, whatever is sent, no key takes effect twice and none that did is undone |
| `WriteProtocol.Write` | examples/agent-clients/agent_client.py:1474-1510 | sends nothing, one request, or the same request twice, the second exactly after the first was lost and retrying is allowed; the key takes effect at most once, and exactly once, with this request, on a normal return |
| `WriteProtocol.AfterwardsOnce` | examples/agent-clients/agent_client.py:1474-1510 | deliveries after the return do not change that |
| `SessionProtocol.Compensate` | apps/api/app/db.py:57-83 | removes exactly the registered files whose bytes still match, and leaves all others as they were |
| `SessionProtocol.CompensateOne` | apps/api/app/db.py:71-83 | one registered file more, also when it names a file met before |
| `SessionProtocol.Settle` | apps/api/app/db.py:103-128 | on every path: when the transaction commits, rolls back or neither, when the request raises, and what happens to the files |
| `SessionProtocol.GetSession` | apps/api/app/db.py:103-131 | on every way out the gate is released exactly once; exactly when the transaction commits, when it rolls back and when the request raises; files are removed only after a rollback that succeeded, and then iff they match |

## Left out

- Deadlines, subprocesses, Poppler, Tesseract and file access of the extractors: pages and reads are inputs, any of which may fail.
- Generators are modelled as sequences computed before they are consumed; which of two failures comes first is therefore not part of the DOCX model, only that one occurs.
- Retained text is one string in the model where the code keeps a list of pieces; the byte counts are the same.
- The analyser's other statements (`for`, `with`, `try`, augmented assignment, `del`, nested `def`; tuple, attribute and subscript targets) and expressions (lists, dictionaries, walrus, floats), source segments that are missing, and case mapping outside ASCII.
- WitnessSoundness.AttributionSound: requires that a branch the walk decides reassigns no response and no name whose entry says something; `WitnessStale.OpenExactly` and `WitnessStale.RebindUncovers` show that any other entry can be made false, not that each such body has a later request that depends on it.
- WitnessSoundness.EvidencePerformed: the same condition.
- WitnessCustody.CustodyKept: the condition `Tracked` is exact for each kind of statement but `if`; for whole bodies it is sufficient, because a statement that would break custody may not be reached, and what functions lead to is taken together for the whole body.
- HelperCheck.HelperCheckExact: says which helpers pass as preserving their client; that the client then serves later requests as before is not part of the runs.
- Which names are clients, which helpers exist, which names each function in scope mentions, and the checks around a witness (`_api_witness_errors`), are inputs of the analyser.
- How a route module is parsed: receivers, arguments, prefixes and `include_in_schema` reach the inventory resolved or unknown, routes and includes in source order, and an unreadable module reports one error each time it is looked up.
- RouterWalker.InventoryExact: a record identifies its route by module and position, in place of file, line and decorator text, and also holds its include path.
- Boolean constants of route modules.
- StringBindings.SettlesExactly: mixed cycles, in which f-strings without text of their own take in other names or names bound from the start, are covered only as far as `CycleNeverSettles` and `CopyCycleExactly` go.
- SourceArchive.ParseTree: starts from records; taking the listing apart at zero octets, tabs and spaces, and reading blobs, are not modelled, a record that fails there being unreadable.
- SourceDistribution.VerifyBytes: an error is an error; messages are not told apart, and a manifest mode that Python cannot hash counts as rejected.
- The comparison with a tree already extracted, the clean-checkout check and the writing of the three artifacts.
- SourceScope.VerifiedExtracts: a disk is files by their names, on a file system that tells all names apart, and empty where the archive is unpacked.
- SourceScope.AllowedExactly: assumes of case folding that it takes ASCII letters to lower case and keeps the rest of ASCII.
- Which imports a page test may have, mocking calls elsewhere in the file and the identifier allowlist (`_ui_cases`): table checks around the scanner.
- The recogniser of shadowing declarations and the sidecar's two records are recursion in the model and loops in the source.
- JsTokens.LexExact: assumes that quotes, slash, backquote and equals sign are not letters; decoding a string literal is a parameter.
- AnchorOrder.OrderedAnchorPositions: the comparison with the sorted list is stated as strict increase.
- Discovery.DiscoveryStrings: the static string of a node is an input, and lower case is ASCII.
- The function inventory and its cache, the marker tables, `release_version.py`, the SBOM check, discovery validation of the client and the web application: tables and field checks that would only add easy members.
- WriteProtocol.Write: authorisation headers and the header limits of `_request` are left out; every failure of a payload check is one outcome.
- SessionProtocol.GetSession: failures other than of commit, rollback and storage, such as a gate registry found invalid while releasing, are not modelled.
