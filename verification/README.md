# C♭ compiler front end: tokens, locations and the library loader

A Dafny model of three small pieces of the C♭ compiler front end:

- **`CFlatToken`** (`tokens.dfy`, module `Tokens`) wraps the parser generator's
  tokens. Regular tokens form a forward `next` chain. Each regular token can
  carry a backward `specialToken` chain of comments and whitespace, and those
  special tokens are linked forward by `next` as well. The token list
  (`buildTokenList`) puts each regular token after its special run, oldest
  first. It can leave out the first token's specials. The included line
  (`includedLine`) joins the images of that list and cuts the result at the
  first newline.
- **`Location`** (`location.dfy`, module `Locations`) is the position shown in
  diagnostics. It delegates to the wrapped token and renders `name:line` and
  `line N: <source line>`.
- **`LibraryLoader`** (`loader.dfy`, module `Loader`) finds a library header on
  an ordered search path. It parses each header once, caches the declarations
  by library id, and keeps a stack of the ids being loaded so that it can
  reject import cycles.

`strings.dfy` (module `Strings`) holds the Java string operations the token
and location code uses: `indexOf` of a newline, `substring` up to it (as "text
before the first newline"), `StringBuilder` concatenation, and the decimal
rendering of an `int` that string concatenation performs. It also holds two
readers that the source does not have: `LastIndexOf` and `ParseDecimal`. They
exist only so that the model's own `SplitLocation` and `SplitNumbered` can
state that the two location renderings lose nothing.

How the model is built:

- The lexer's token graph has cycles: `s.next.specialToken == s` inside a
  special run. Tokens therefore live in a heap `map<nat, Token>`, and
  `Ref = Null | To(handle)` stands for a nullable Java reference.
- A chain is finite exactly when a `Path` witness for it exists. The chain
  walks (`SpecialTokenHead`, `BuildTokenList`, `IncludedLine`) are methods with
  loops. Each takes such a witness (`layout`) as a ghost parameter, and each is
  proved equal to a pure reference definition: `Flatten` for the token list,
  `LineText` for the included line.
- The loader state (`LibraryLoader`: search path, stack, cache) is an immutable
  value. It is threaded through `Load`, its cache-miss branch `LoadFresh`, and
  `LoadAll`, the import loading the parser does in the middle of
  `loadLibrary`. Failures are an `Outcome` that still carries the state
  reached, because the source does not unwind the stack when an exception
  passes through it.
- The file system is a set of existing paths. The parser is an oracle (`Env`)
  from a header path to that header's imports and its own declarations, or to
  a rejection with a message.
- Termination of the mutual recursion uses this measure: the number of ids
  that some header imports, plus the id being loaded, minus the ids already on
  the stack.

## Model

| member | source | states |
|---|---|---|
| `Tokens.SpecialTokenHead` | src/main/java/net/loveruby/cflat/ast/CFlatToken.java:79-85 | On a finite `specialToken` walk, returns the last token of the walk, which is the oldest special. That token's `specialToken` is null. |
| `Tokens.SpecialRun` | src/main/java/net/loveruby/cflat/ast/CFlatToken.java:67-72 | The specials emitted before a regular token are exactly the tokens met walking `next` from the oldest special. Each is wrapped by the one-argument constructor, so it is not marked special. |
| `Tokens.BuildTokenList` | src/main/java/net/loveruby/cflat/ast/CFlatToken.java:63-77 | Walking the heap gives exactly the reference list `Flatten(layout, rejectFirstSpecials)`, and every element is a token of the heap. |
| `Tokens.Iterator` | src/main/java/net/loveruby/cflat/ast/CFlatToken.java:55-57 | `iterator()` yields the reference list that includes the first token's specials. |
| `Tokens.TokensWithoutFirstSpecials` | src/main/java/net/loveruby/cflat/ast/CFlatToken.java:59-61 | `tokensWithoutFirstSpecials()` yields the reference list without the first token's specials. |
| `Tokens.IteratorAddsFirstSpecials` | src/main/java/net/loveruby/cflat/ast/CFlatToken.java:55-61 | `iterator()`'s list is the first token's special run followed by `tokensWithoutFirstSpecials()`'s list. |
| `Tokens.RejectOnlyFirstSpecials` | src/main/java/net/loveruby/cflat/ast/CFlatToken.java:65-74 | Rejecting the first specials drops only the first token's run. The rest of the list is the full list of the remaining chain, with every later run included. |
| `Tokens.FlattenSplit` | src/main/java/net/loveruby/cflat/ast/CFlatToken.java:63-77 | At every chain position the list is the list of the entries before it followed by the list of the rest. The rest keeps its first token's specials unless the position is 0. |
| `Tokens.RegularAtPos` | src/main/java/net/loveruby/cflat/ast/CFlatToken.java:66-73 | The i-th regular token of the chain sits at position `Pos(i)` in the list. Its special run directly precedes it. |
| `Tokens.RegularsInChainOrder` | src/main/java/net/loveruby/cflat/ast/CFlatToken.java:66-75 | Regular tokens appear in chain order: i < j implies `Pos(i) < Pos(j)`. |
| `Tokens.RegularOnce` | src/main/java/net/loveruby/cflat/ast/CFlatToken.java:66-73 | On a heap the lexer built, where special and regular tokens are distinct, every regular token of the chain occurs exactly once in the list. |
| `Tokens.SpecialsOldestFirst` | src/main/java/net/loveruby/cflat/ast/CFlatToken.java:68-71 | On a heap the lexer built, the run emitted before a token is its `specialToken` walk reversed, which is oldest first. |
| `Tokens.IncludedLine` | src/main/java/net/loveruby/cflat/ast/CFlatToken.java:87-98 | The loop that stops at the first image holding a newline returns the reference `LineText`. That is the joined images of `tokensWithoutFirstSpecials()`, cut just before the first newline. The result never contains a newline. |
| `Tokens.WholeLineWithoutNewline` | src/main/java/net/loveruby/cflat/ast/CFlatToken.java:87-98 | When no image of `tokensWithoutFirstSpecials()` holds a newline, the loop never breaks, and the included line is all of those images joined. |
| `Tokens.IncludedLineExample` | src/main/java/net/loveruby/cflat/ast/CFlatToken.java:63-98 | Concrete chain `x`, `;` (space special), `y` (newline special). The list without first specials is `x`, space, `;`, newline, `y`, and the included line is `x ;`. |
| `Tokens.Wrap` | src/main/java/net/loveruby/cflat/ast/CFlatToken.java:14-21 | The one-argument constructor: it wraps a token with `isSpecial` false. Its contract is stated by `WrapReadsToken`. |
| `Tokens.ToString` | src/main/java/net/loveruby/cflat/ast/CFlatToken.java:23-25 | `toString()` is the wrapped token's image. |
| `Tokens.KindId` | src/main/java/net/loveruby/cflat/ast/CFlatToken.java:31-33 | `kindID()` is the wrapped token's kind. |
| `Tokens.LineNo` | src/main/java/net/loveruby/cflat/ast/CFlatToken.java:39-41 | `lineno()` is the wrapped token's begin line. |
| `Tokens.Column` | src/main/java/net/loveruby/cflat/ast/CFlatToken.java:43-45 | `column()` is the wrapped token's begin column. |
| `Tokens.Image` | src/main/java/net/loveruby/cflat/ast/CFlatToken.java:47-49 | `image()` is the wrapped token's image. |
| `Tokens.WrapReadsToken` | src/main/java/net/loveruby/cflat/ast/CFlatToken.java:14-49 | A token wrapped by the one-argument constructor is not special. Its `toString`, `image`, `lineno` and `column` are the wrapped token's image, begin line and begin column. |
| `Locations.FromToken` | src/main/java/net/loveruby/cflat/ast/Location.java:8-15 | The constructor taking a raw token wraps it with the one-argument `CFlatToken` constructor. Its contract is stated by `FromTokenReadsToken`. |
| `Locations.LineNo` | src/main/java/net/loveruby/cflat/ast/Location.java:26-28 | `lineno()` delegates to the wrapped token. |
| `Locations.Column` | src/main/java/net/loveruby/cflat/ast/Location.java:30-32 | `column()` delegates to the wrapped token. |
| `Locations.ToString` | src/main/java/net/loveruby/cflat/ast/Location.java:42-44 | `toString()` is the source name, a colon, then the decimal line number. `ToStringRoundTrip` shows that nothing is lost. |
| `Locations.FromTokenReadsToken` | src/main/java/net/loveruby/cflat/ast/Location.java:8-32 | A location built from a raw token keeps the given source name and wraps the token as non-special. Its `lineno` and `column` are the token's begin line and begin column. |
| `Locations.ToStringRoundTrip` | src/main/java/net/loveruby/cflat/ast/Location.java:42-44 | Splitting `name:line` at the last colon recovers the source name and the line number, even when the name itself contains colons. |
| `Locations.Line` | src/main/java/net/loveruby/cflat/ast/Location.java:34-36 | `line()` is the wrapped token's included line, so it holds no newline. |
| `Locations.NumberedLine` | src/main/java/net/loveruby/cflat/ast/Location.java:38-40 | `numberedLine()` is `line `, the decimal line number, `: `, then the included line. The result is a single line of text. |
| `Locations.NumberedRoundTrip` | src/main/java/net/loveruby/cflat/ast/Location.java:38-40 | From `line N: text` one recovers N and the text. |
| `Strings.DecimalRoundTrip` | src/main/java/net/loveruby/cflat/ast/Location.java:39-43 | The decimal rendering of the line number that both strings append reads back to the same integer. |
| `Loader.DefaultLoadPath` | src/main/java/net/loveruby/cflat/parser/LibraryLoader.java:16-20 | The default search path is the current directory alone. |
| `Loader.DefaultLoader` | src/main/java/net/loveruby/cflat/parser/LibraryLoader.java:22-24 | The no-argument constructor uses the default search path. Its state is stated by `DefaultLoaderSearchesCurrentDirectory`. |
| `Loader.NewLoader` | src/main/java/net/loveruby/cflat/parser/LibraryLoader.java:26-30 | The constructor taking a search path starts with an empty stack and an empty cache. |
| `Loader.AddLoadPath` | src/main/java/net/loveruby/cflat/parser/LibraryLoader.java:32-34 | Appends a directory to the end of the search path. `AddedPathHasLowestPriority` states its effect on the search. |
| `Loader.LibPath` | src/main/java/net/loveruby/cflat/parser/LibraryLoader.java:68-70 | Same length as the id. Every `.` becomes `/`, every other character is kept, and no `.` is left. |
| `Loader.Search` | src/main/java/net/loveruby/cflat/parser/LibraryLoader.java:52-66 | Returns the candidate `dir/libPath(id).hb` of the first directory, in search-path order, whose candidate exists. If and only if no candidate exists, it fails with `NoSuchLibrary(id)`. |
| `Loader.Load` | src/main/java/net/loveruby/cflat/parser/LibraryLoader.java:36-50 | An id already on the stack fails as a recursive import from the stack's top, with the state unchanged. A cache hit returns the cached declarations with the id pushed and left on the stack (as written). A missing header fails after the push. Every load keeps the search path and the bottom of the stack. |
| `Loader.LoadFresh` | src/main/java/net/loveruby/cflat/parser/LibraryLoader.java:46-49 | A found header keeps the search path and the bottom of the stack. A rejected header, or a failing import, leaves the pushed id on the stack. A successful load returns declarations read from the found path. |
| `Loader.CacheAndPop` | src/main/java/net/loveruby/cflat/parser/LibraryLoader.java:47-48 | Stores the declarations under the id and removes the stack's last element, whichever id that is. |
| `Loader.LoadAll` | src/main/java/net/loveruby/cflat/parser/LibraryLoader.java:46 | Loading a header's imports, in order, keeps the search path and the bottom of the stack. On success it returns one declarations value per import. |
| `Loader.LoadInvariants` | src/main/java/net/loveruby/cflat/parser/LibraryLoader.java:36-50 | The cache only grows and no entry is overwritten. Only ids that were not on the stack get cached. A stack without duplicates stays without duplicates. With the corrected hit path, a successful load restores the stack. |
| `Loader.LoadFreshInvariants` | src/main/java/net/loveruby/cflat/parser/LibraryLoader.java:46-49 | The same invariants hold for the cache-miss branch: parse, cache, then pop. |
| `Loader.LoadAllInvariants` | src/main/java/net/loveruby/cflat/parser/LibraryLoader.java:46 | The same invariants hold across a header's imports. |
| `Loader.LoadCaches` | src/main/java/net/loveruby/cflat/parser/LibraryLoader.java:41-47 | A successful load leaves its result cached under its id, whether it came from the cache or was parsed. |
| `Loader.LoadAllCaches` | src/main/java/net/loveruby/cflat/parser/LibraryLoader.java:46-47 | After a header's imports load, every import is cached, and the result lists the cached declarations in import order. |
| `Loader.FreshLoad` | src/main/java/net/loveruby/cflat/parser/LibraryLoader.java:46-49 | A load that parses returns the first matching header's body and the cached declarations of its imports. The id is not among its own imports. If the nested loads restored the stack, the load restores it too. |
| `Loader.LoadLibrary` | src/main/java/net/loveruby/cflat/parser/LibraryLoader.java:36-50 | `loadLibrary` as written: `Load` with the cache-hit path leaving the id on the stack. |
| `Loader.LoadLibraryFixed` | src/main/java/net/loveruby/cflat/parser/LibraryLoader.java:36-50 | `loadLibrary` with the cache-hit path popping the id as well. It is the corrected loader of the finding below. |
| `Loader.AsWrittenThirdLoadRejected` | src/main/java/net/loveruby/cflat/parser/LibraryLoader.java:37-45 | As written, after one successful load of an id, loading it twice more always ends in failure. If the second load succeeds, it returns the same declarations, and the third fails as a recursive import of the id from itself. |
| `Loader.AsWrittenRepeatImportExample` | src/main/java/net/loveruby/cflat/parser/LibraryLoader.java:37-45 | Concrete case: header `./x.hb` with no imports, default search path. The first load leaves the stack empty. The second leaves `["x"]`. The third fails with "recursive import from x: x". |
| `Loader.AsWrittenNestedHitExample` | src/main/java/net/loveruby/cflat/parser/LibraryLoader.java:40-48 | Concrete case: load `b` (no imports), then `a`, which imports `b`. The nested cache hit leaves `b` on the stack, and `a`'s `removeLast` pops `b`, so the stack is left as `["a"]`. Loading `a` again fails with "recursive import from a: a". |
| `Loader.ImportCycleExample` | src/main/java/net/loveruby/cflat/parser/LibraryLoader.java:37-46 | Concrete cycle: `a` imports `b` and `b` imports `a`. Loading `a`, under either treatment of cache hits, fails with "recursive import from b: a". The failure leaves the stack as `["a", "b"]`. |
| `Loader.FixedRepeatLoadIsCached` | src/main/java/net/loveruby/cflat/parser/LibraryLoader.java:40-45 | With the hit path popping, loading an id again returns the same declarations and leaves the state untouched. The header is parsed once however often it is imported. |
| `Loader.AddedPathHasLowestPriority` | src/main/java/net/loveruby/cflat/parser/LibraryLoader.java:32-34 | A directory added with `addLoadPath` is consulted only when no earlier directory holds the header. |
| `Loader.DefaultLoaderSearchesCurrentDirectory` | src/main/java/net/loveruby/cflat/parser/LibraryLoader.java:16-24 | The default loader has search path `["."]`, an empty stack and an empty cache. It finds `./<libPath(id)>.hb` or fails. |

## Left out

- `kindName` and `dumpedImage` are left out. They read the parser's token-name table and a string-escaping helper, and neither is part of this model.
- `Parser.parseDeclFile` is not part of this model. It is an oracle that gives a header's imports and its own declarations, or rejects the header.
- A rejected header fails before any of its imports are loaded. In the real parser, a syntax error after the import lines would come after those loads.
- A failure in a nested import propagates unchanged. The parser's re-wrapping of that exception is not visible here.
- Declarations are opaque. A library's declarations are modelled as its header path, its own body and its imports' declarations.
- Real file-system checks are not modelled. Existence is membership of the path string in a given set, so `java.io.File`'s path normalisation and the `SecurityException` branch of `searchLibrary` are not modelled.
- The `ErrorHandler` argument is not modelled because it only reports diagnostics.
- Token positions are unbounded integers. Java's 32-bit `int` never matters for line and column numbers.
- Chains are modelled as finite. The Java loops in `buildTokenList` and `specialTokenHead` do not terminate on a cyclic chain, and the model requires a finite-walk witness instead.

## Findings

| source | as written | input that shows it | evidently intended | confidence | as-written member | corrected member |
|---|---|---|---|---|---|---|
| src/main/java/net/loveruby/cflat/parser/LibraryLoader.java:40-45 | The cache-hit path returns before `removeLast`, so the id stays on the loading stack. When the hit is nested inside another load, the importer's `removeLast` pops the cached import instead of the importer, which then stays on the stack (`Loader.AsWrittenNestedHitExample`). | Header `./x.hb` with no imports, default search path, `loadLibrary("x")` three times. The third call fails with "recursive import from x: x". | Every successful load leaves the stack as it found it, so repeated imports of one library return the cached declarations. | medium, not executed | `Loader.AsWrittenRepeatImportExample` | `Loader.FixedRepeatLoadIsCached` |

`Load` takes a flag:

- With `popOnCacheHit` false (`LoadLibrary`), it is the source as written. The rest of this model describes that behaviour.
- With the flag true (`LoadLibraryFixed`), it is the corrected loader. `LoadInvariants` proves that every successful corrected load restores the stack.
