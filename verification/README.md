# Models of the OpenReceive trial harness, test servers and demo shop

Five stateful components of the repository, and two small escape pairs, as Dafny models with
proofs. `dafny verify dfyconfig.toml` checks everything.

| files | what they model |
|---|---|
| `Semaphores.dfy`, `Pool.dfy` | the FIFO semaphore and the trial scheduler (`trials/harness/pool.ts`), as a class and as a transition system over any interleaving of the jobs |
| `Redaction.dfy`, `RedactionSteps.dfy`, `RedactionLaw.dfy`, `RedactionCases.dfy`, `RedactionOverlaps.dfy`, `Text.dfy` | secret redaction and leak detection (`redact.ts`, `checks.ts`) over `includes` and `split().join()`: the code, the exact clearing law, the code lists it decides |
| `Blocks.dfy` | the heredoc splitter and the package-patch check built on it (`checks.ts`) |
| `WalletStore.dfy`, `WalletListing.dfy`, `WalletScan.dfy` | the NIP-47 test wallet's invoice list, its paged listing while the list changes, and the plugin's truncation-safe scan of it |
| `SwapProvider.dfy`, `SwapSteps.dfy`, `FakeLsc.dfy`, `SwapAmounts.dfy` | the scripted swap provider: its transitions and their runs, what each one does, the object that runs them, its money |
| `Cart.dfy`, `Shop.dfy`, `ShopSteps.dfy`, `ShopStore.dfy`, `Cookie.dfy`, `Migrations.dfy` | the demo shop: cart trust boundary, order store, signed cookie, migration runner |
| `Escapes.dfy` | `unwrapShell` and `envFileValue` |

A component that changes state in place is a class whose methods are proved equal to a transition
function (`Semaphore`, `InMemoryWalletBackend`, `FakeLscProvider`, `Database`, `Runner`,
`ProductTable`); a loop is a method proved equal to a declarative function. The laws are lemmas
about those functions over all inputs and all runs. Ghost fields (`holders`, `arrived`, `granted`,
`entered`, `wins`) record history only and decide nothing.

## What the laws rest on

- Pool: each `run` ends, either way; nothing else is known of it. Any job that is not waiting may
  step next.
- Redaction: what every cleared code list must satisfy is proved for all lists. That it suffices is
  proved for every list without angle brackets, and for every list whose secrets' runs are apart from
  the tokens put in (`Tractable`): neither holds the other, and no end of one is a start of the other.
- Wallet: 32 random bytes never repeat a payment hash, and a list holds fewer than 2^31 items. The
  clock is a parameter of each reading; the forward law takes two readings in clock order. The scan
  laws take a wallet that honours offsets and rows the client can use, and those about repeated pages
  hashes without commas, as hexadecimal digits are.
- Swap provider: six random characters never repeat an order id, and none spells an asset name.
- Shop: `products.id` and `products.sku` are unique, as the schema says; a transaction commits whole
  or leaves nothing.
- Cookie: UTF-8 decoding undoes encoding; a URI component encoder leaves unreserved characters alone
  and a decoder leaves text without `%` alone. HMAC is any function.
- Migrations: the listed ids differ, and one process migrates at a time. The database may change
  between runs in any way; only `Migrations.InterruptedRunsConverge` takes runs with nothing written
  between them and the same clock and ids.

## Where the code and its own words differ

- `redact.ts` promises every 12-character slice of a secret is replaced. Three kinds of code break it;
  `RedactionLaw.ClearedIff` is exact for the first two.
  - A URI with neither a `secret` nor a `key` value is replaced whole only, while the leak check treats
    all of it as secret: `RedactionCases.ValuelessLscLeaks` is a swap code without a value behind any
    complete wallet code, `RedactionCases.UriLeaks` the general case.
  - A short secret comes back when the token put in for it, or for a code that fires before it,
    spells it after the later replacements. Behind the two codes every trial has, the passwords
    `SECRET`, `RET` and `C` stay readable and `N` and `NWC` do not
    (`RedactionCases.SpelledPasswords`).
  - A secret with a window that ends in a start of the token: behind the same codes, the password
    `abcdefghijk<mnopqrst` turns the text `abcdefghijkbcdefghijk<m` into `abcdefghijk<SECRET>`, which
    holds its first window (`RedactionOverlaps.BracketedPassword`). `RedactionOverlaps.OverlapLeaks`
    says when such a window leaks. Meeting the token is not always enough: `<<<` meets it and is
    cleared (`RedactionCases.TripleBracket`). A bracket that meets no token does no harm.
- `sandbox.ts` says a one-line value stays as it is. So the one-line value `"a\nb"`, quotes and
  backslash included, is written like `a` and `b` on two lines, and no reader can tell them apart
  (`Escapes.QuotedCollides`; `Escapes.EnvFileCollision` says exactly which pairs collide,
  `Escapes.EnvFileShared` which values are in such a pair).
- `shop-routes.ts` takes the base name so that an image name cannot walk out of the artwork directory.
  The base name of `..` is `..`: `Shop.ParentServed` names such a row, `Shop.DownloadContained` the
  exact condition.
- A signed empty value never verifies (`Cookie.SignedReadsBack`); the shop only signs visitor ids.
- Rendering an attention order whose reason a script has just cleared would read as a provider
  emergency; no answer is ever rendered in that moment (`SwapProvider.EveryOrderRenders`,
  `SwapProvider.AnswersFaithfully`).

## Model

| member | source | states |
|---|---|---|
| Semaphores.Semaphore.constructor | trials/harness/pool.ts:6-9 | a new semaphore has all its slots free, nobody waiting and an empty history |
| Semaphores.Semaphore.Create | trials/harness/pool.ts:6-9 | a size below one is refused, any other gives a full semaphore |
| Semaphores.Semaphore.Acquire | trials/harness/pool.ts:11-19 | the caller gets a slot at once exactly when one is free, else joins the end of the queue; soundness kept |
| Semaphores.Semaphore.Release | trials/harness/pool.ts:21-25 | the slot goes straight to the oldest waiter, who holds it from that moment, or becomes free, whoever calls; soundness is kept exactly when the caller held a slot |
| Semaphores.AcquireSound | trials/harness/pool.ts:11-19 | free slots plus holders stay the size, nobody queues while a slot is free, grants followed by the queue stay the order of calls |
| Semaphores.ReleaseSound | trials/harness/pool.ts:21-25 | the same is kept by a release, and exactly the woken waiter leaves the queue |
| Pool.Path | trials/harness/pool.ts:56-61 | a job takes its own key, then the overall slot, then the heavy slot, and only the ones it needs |
| Pool.StepInv | trials/harness/pool.ts:55-72 | every step of every job keeps each semaphore sound and in agreement with what the jobs are doing, each `run` invoked at most once, the errors those of the jobs that threw |
| Pool.StepLowersRank | trials/harness/pool.ts:55-72 | every step lowers a natural number |
| Pool.SomeoneCanStep | trials/harness/pool.ts:57-61 | while a job is unfinished some job can step: the fixed lock order leaves no cycle of waiting |
| Pool.RunKeepsInv | trials/harness/pool.ts:40-72 | the invariant holds after every schedule, and no schedule is longer than the initial rank |
| Pool.CapsHold | trials/harness/pool.ts:35-39 | after every schedule at most `parallel` jobs run, at most `heavyParallel` heavy ones, and no two running jobs share a serial key |
| Pool.QueuesFair | trials/harness/pool.ts:57-61 | after every schedule each lock has been granted in the order it was asked for, and a job queued on its key holds no lock |
| Pool.QueuedHoldsNothing | trials/harness/pool.ts:57-59 | a job waiting for its serial key holds no slot of any kind |
| Pool.StuckIsFinished | trials/harness/pool.ts:62-72 | when nothing can step, every job ran exactly once and is done, the errors are exactly those of the jobs that threw, and every semaphore is full with no waiter |
| Pool.PoolFinishes | trials/harness/pool.ts:40-72 | schedules are bounded, and one can be extended exactly when the pool is not finished: no deadlock and no endless run, whatever throws |
| Pool.RunPool | trials/harness/pool.ts:40-78 | under any scheduler: bad sizes refused, one failing job rethrown as itself, several as all of them, otherwise completion |
| Text.JoinOfSplit | trials/harness/redact.ts:15 | joining with the separator undoes splitting for every text |
| Text.SplitPieces | trials/harness/redact.ts:15 | every piece occurs in the text and no piece holds the separator |
| Text.SplitLeftmost | trials/harness/redact.ts:15 | the cut is at the leftmost occurrence, and what follows it is split in turn |
| Text.SplitOfJoin | packages/dotnet/BTCPayServer.Plugins.OpenReceive/Nwc/WalletScan.cs:173 | splitting undoes joining when no piece holds the separating character |
| Text.TrimTakes | trials/harness/checks.ts:219 | trimming takes white space off both ends and stops at the first character that is none |
| Redaction.SecretValueOf | trials/harness/checks.ts:29-35 | every `secret` or `key` value is a nonempty run of the URI, shorter than it and without `&` |
| RedactionSteps.ValuesExactly | trials/harness/checks.ts:29-35 | the values found are exactly those that one of the four markers names: up to the next ampersand, not empty, and not inside an earlier value |
| RedactionSteps.MaterialsExactly | trials/harness/checks.ts:29-35 | the materials are those values, or the whole code when there are none |
| Redaction.Leaks | trials/harness/checks.ts:42-48 | true exactly when the command and the material share a run of min(12, length of the material) characters |
| Redaction.PushOwned | trials/harness/redact.ts:16-18 | collects exactly the materials the second pass owns, in order |
| Redaction.RedactCodes | trials/harness/redact.ts:9-19 | the first pass is the declared replacements of whole codes, and what it collects |
| Redaction.RedactOwned | trials/harness/redact.ts:20-26 | one material of the second pass: whole, then each 12-character window |
| Redaction.Redact | trials/harness/redact.ts:8-28 | the nested loops are one list of replacements applied in order |
| RedactionSteps.CodeReads | trials/harness/redact.ts:11-15 | a text that is just one of the codes reads `<NWC>` for the first, `<LSC>` for another URI and `<SECRET>` for anything else |
| RedactionSteps.FirstPass | trials/harness/redact.ts:10-19 | the first pass replaces each nonempty code, in order, before anything else is replaced |
| RedactionSteps.SecondPass | trials/harness/redact.ts:20-26 | each material is replaced whole and then every run of twelve characters of it, left to right, with its own token |
| RedactionSteps.SortedStably | trials/harness/redact.ts:20 | longer materials come first, and those of one length in the order they were collected |
| Text.OverToken | trials/harness/redact.ts:21-24 | a word apart from the inserted token lies wholly on one side of it |
| Text.ReplaceApart | trials/harness/redact.ts:21-24 | no replacement creates a word apart from its token, and none leaves one that holds its separator, although it inserts text |
| Redaction.ApplyApart | trials/harness/redact.ts:20-26 | a word apart from the tokens in the output was in the input and holds no separator of any replacement: nothing removed comes back |
| Redaction.BracketFreeApart | trials/harness/redact.ts:14 | without brackets a word is apart from a token exactly when the token does not spell it |
| Redaction.SurvivesIff | trials/harness/redact.ts:8-28 | some text keeps a word apart from the tokens exactly when the word holds no separator |
| Redaction.StepOrigin | trials/harness/redact.ts:11-25 | every replacement cuts a whole code, a material or a window of one, and puts in a token |
| Redaction.RunIsSeparator | trials/harness/redact.ts:20-25 | every window of every owned material is itself replaced, whatever the sort order |
| Text.ReplaceAcross | trials/harness/redact.ts:21-24 | replacing acts separately on the two sides of a character the separator avoids |
| RedactionLaw.SurvivesExactly | trials/harness/redact.ts:8-28 | for bracketed tokens and bracket-free separators, some output holds a bracket-free word if and only if the word holds no separator, or a step that meets its separator untouched puts in a token that holds the word after the later steps |
| RedactionLaw.ClearedNeeds | trials/harness/redact.ts:8-28 | for any codes at all: if every text is cleared, no code is empty, each window of each valueless URI holds something replaced, and no short secret is put back |
| RedactionLaw.ClearedIff | trials/harness/redact.ts:8-28 | for every code list without angle brackets, and for the lists of the next row, those three conditions hold exactly when no redacted text leaks |
| RedactionLaw.ClearedIffRedactable | trials/harness/redact.ts:8-28 | where every run of every secret is apart from every token, only valueless URIs and empty codes decide |
| RedactionLaw.RedactClears | trials/harness/redact.ts:3-7 | in such lists, when every code is nonempty and either plain or carries a value, every text is cleared exactly when no short secret is put back |
| RedactionLaw.RedactIdentity | trials/harness/redact.ts:8-28 | text without a leak is returned unchanged, whatever the codes |
| RedactionLaw.RedactIdempotent | trials/harness/redact.ts:8-28 | a text that redaction clears is not changed by redacting it again, whatever the codes |
| RedactionCases.PasswordCleared | trials/harness/redact.ts:20-26 | a short password behind any number of wallet codes, whatever its characters, is cleared from every text when replacing it once never leaves it standing |
| RedactionCases.ApartPassword | trials/harness/redact.ts:20-26 | so it is when it is apart from its own token |
| RedactionCases.ShortPassword | trials/harness/redact.ts:13-22 | without brackets, it is cleared from every text if and only if its own token does not spell it |
| RedactionCases.SpelledPasswords | trials/harness/redact.ts:13-22 | behind any complete wallet code and any swap code with hex values, `SECRET`, `RET` and `C` are not cleared, `N` and `NWC` are |
| RedactionCases.TripleBracket | trials/harness/redact.ts:20-26 | `<<<` ends in a start of `<SECRET>` and is cleared all the same |
| RedactionCases.UriLeaks | trials/harness/redact.ts:16-18 | a URI over 12 characters without a value, anywhere in any list, leaves each window readable that shares no run with another code's secret |
| RedactionCases.ValuelessLscLeaks | trials/harness/redact.ts:16-18 | a swap code without a value behind any complete wallet code is such a URI |
| RedactionOverlaps.OverlapLeaks | trials/harness/redact.ts:20-26 | a long password behind any codes: a window that ends in a start of `<SECRET>` stays readable in some text, unless another secret or window is met on the way |
| RedactionOverlaps.BracketLeaks | trials/harness/redact.ts:20-26 | behind any wallet codes whose secrets the text does not meet, each password of 13 to 24 characters with a bracket in twelfth place and a fresh character after it leaks |
| RedactionOverlaps.BracketedPassword | trials/harness/redact.ts:20-26 | `abcdefghijk<mnopqrst` leaks behind any complete wallet code and any swap code with hex values |
| Blocks.Split | trials/harness/checks.ts:203-228 | the scan yields a blocking: the lines in order, each block a heredoc up to the first line that ends it or a maximal opener-free run, only the last possibly open |
| Blocks.BlockingUnique | trials/harness/checks.ts:197-202 | any lines have exactly one blocking |
| Blocks.TerminatorLine | trials/harness/checks.ts:219 | a line ends a heredoc exactly when it is the opener's word with nothing but white space around it |
| Blocks.PatchesPackage | trials/harness/checks.ts:236-244 | true exactly when in some block a line has a package path, and the lines from 15 before it to 14 after it, or to where the block ends, hold a mutation |
| Blocks.OneReach | trials/harness/checks.ts:241 | around every line there is exactly one such stretch |
| Blocks.PatchInOneBlock | trials/harness/checks.ts:230-244 | a finding reads one stretch of at most 30 lines around a package path and no block starts or ends inside it |
| WalletStore.InMemoryWalletBackend.constructor | packages/dotnet/OpenReceive.TestkitNwc/InMemoryWalletBackend.cs:13-15 | an empty list, nothing announced |
| WalletStore.InMemoryWalletBackend.MakeInvoice | packages/dotnet/OpenReceive.TestkitNwc/InMemoryWalletBackend.cs:24-44 | a pending row, expiring after the given or default hour, goes to the end of the list |
| WalletStore.InMemoryWalletBackend.Seed | packages/dotnet/OpenReceive.TestkitNwc/InMemoryWalletBackend.cs:82-89 | rows of that hash go, the rest keep their order, the row is added last |
| WalletStore.SeedKeeps | packages/dotnet/OpenReceive.TestkitNwc/InMemoryWalletBackend.cs:82-89 | rows of another hash keep their place, rows of its own go, one by one |
| WalletStore.InMemoryWalletBackend.Replace | packages/dotnet/OpenReceive.TestkitNwc/InMemoryWalletBackend.cs:108-120 | an unknown hash is refused, a known row is updated in place or left |
| WalletStore.InMemoryWalletBackend.SettleAsync | packages/dotnet/OpenReceive.TestkitNwc/InMemoryWalletBackend.cs:92-100 | a row not yet settled is stamped and announced, a settled one is left and not announced again |
| WalletStore.InMemoryWalletBackend.ExpireAsync | packages/dotnet/OpenReceive.TestkitNwc/InMemoryWalletBackend.cs:102-106 | a row not settled becomes expired, nothing is announced |
| WalletStore.SettleDoes | packages/dotnet/OpenReceive.TestkitNwc/InMemoryWalletBackend.cs:92-100 | a known, unsettled hash: its row is stamped with the time, that row is announced, every other row stays; a settled or unknown hash: nothing changes |
| WalletStore.ExpireDoes | packages/dotnet/OpenReceive.TestkitNwc/InMemoryWalletBackend.cs:102-106 | a known, unsettled hash: its row becomes expired and nothing else changes; a settled or unknown one: nothing does |
| WalletStore.ReadsExpired | packages/dotnet/OpenReceive.TestkitNwc/InMemoryWalletBackend.cs:122-126 | a row reads as expired exactly when it was expired or is pending past its expiry, and reading changes nothing else |
| WalletStore.RowTold | packages/dotnet/OpenReceive.TestkitNwc/InMemoryWalletBackend.cs:92-120 | after any run, a row is the invoice that was minted; settled exactly when a later operation settled its hash, at the time of the first that did; else expired exactly when one expired it |
| WalletStore.MintKept | packages/dotnet/OpenReceive.TestkitNwc/InMemoryWalletBackend.cs:24-44 | after any run, every invoice minted has its row |
| WalletStore.InMemoryWalletBackend.BalanceMsats | packages/dotnet/OpenReceive.TestkitNwc/InMemoryWalletBackend.cs:75-79 | the sum of the settled amounts |
| WalletStore.RunInv | packages/dotnet/OpenReceive.TestkitNwc/InMemoryWalletBackend.cs:82-120 | over any run: one row a hash, settled rows and only those are stamped, events match settled rows, the balance is what was announced |
| WalletStore.AnnouncedOnce | packages/dotnet/OpenReceive.TestkitNwc/InMemoryWalletBackend.cs:91-100 | from an empty wallet, exactly one event for each settled invoice, raised with the row as it still stands |
| WalletStore.RunGrows | packages/dotnet/OpenReceive.TestkitNwc/InMemoryWalletBackend.cs:82-120 | rows keep their place and identity, a settled row never changes again, new rows come last |
| WalletStore.ReportedForward | packages/dotnet/OpenReceive.TestkitNwc/InMemoryWalletBackend.cs:122-126 | with lazy expiry, a reported state only moves pending, expired, settled, and a reported settlement is final |
| WalletListing.ListingRows | packages/dotnet/OpenReceive.TestkitNwc/InMemoryWalletBackend.cs:57-73 | the listing holds exactly the matching rows, by creation time descending, later insertion first |
| WalletListing.ListedExactly | packages/dotnet/OpenReceive.TestkitNwc/InMemoryWalletBackend.cs:57-73 | exactly the invoices created in the window, both ends included, and paid unless unpaid ones are asked for, each as it reads at its moment, newest first, later insertion first |
| WalletListing.ListingUnique | packages/dotnet/OpenReceive.TestkitNwc/InMemoryWalletBackend.cs:67-68 | only one arrangement of the matching rows is so ordered |
| WalletListing.ListingGrows | packages/dotnet/OpenReceive.TestkitNwc/InMemoryWalletBackend.cs:57-73 | whatever was listed is still listed after any mints, settlements and expiries |
| WalletListing.PositionGrows | packages/dotnet/OpenReceive.TestkitNwc/InMemoryWalletBackend.cs:67-68 | a row sits no higher in a later, larger listing |
| WalletListing.EffectiveLimit | packages/dotnet/OpenReceive.TestkitNwc/TestkitWalletService.cs:184 | the 32-bit conversion and the clamp never ask for more than the cap |
| WalletListing.LimitExactly | packages/dotnet/OpenReceive.TestkitNwc/TestkitWalletService.cs:184 | a limit within the cap is honoured, above it cut, below zero nothing, left out the cap, and the same 2^32 further on |
| WalletListing.WrapsToInt32 | packages/dotnet/OpenReceive.TestkitNwc/TestkitWalletService.cs:184-185 | the conversion keeps the lower 32 bits as a signed number |
| WalletListing.PageExactly | packages/dotnet/OpenReceive.TestkitNwc/TestkitWalletService.cs:182-192 | the page is the listing from the offset on, up to the limit, and short only where the listing ends |
| WalletListing.PageOtherwise | packages/dotnet/OpenReceive.TestkitNwc/TestkitWalletService.cs:185-189 | nothing outgoing is listed, and an offset reads the same 2^32 further on |
| WalletListing.SeenOrAhead | packages/dotnet/OpenReceive.TestkitNwc/TestkitWalletService.cs:182-192 | at each page, a row listed at the first one has been served or still lies past the offset |
| WalletListing.EmptyPageProves | packages/dotnet/OpenReceive.TestkitNwc/TestkitWalletService.cs:182-192 | an empty page proves that every row listed at the first one has been served |
| WalletListing.WalkMissesNothing | packages/dotnet/OpenReceive.TestkitNwc/TestkitWalletService.cs:182-192 | an offset walk to an empty page, with mints, settlements and expiries between its pages, serves every row that was listed when it began |
| WalletStore.GrowsBetween | packages/dotnet/OpenReceive.TestkitNwc/InMemoryWalletBackend.cs:82-120 | within one run of the wallet, rows keep place and identity from any moment to any later one |
| WalletListing.WalkOverRun | packages/dotnet/OpenReceive.TestkitNwc/TestkitWalletService.cs:182-192 | pages read at any moments of one run of mints, settlements and expiries serve every row listed at the first moment |
| WalletListing.PagesConcatenate | packages/dotnet/OpenReceive.TestkitNwc/TestkitWalletService.cs:184-190 | over an unchanged store the pages served so far are a prefix of the listing |
| WalletListing.WalkServesListing | packages/dotnet/OpenReceive.TestkitNwc/TestkitWalletService.cs:184-190 | and a finished walk has served the listing itself, each row once |
| WalletScan.RecordPage | packages/dotnet/BTCPayServer.Plugins.OpenReceive/Nwc/WalletScan.cs:145-156 | the usable rows of a page are taken in one by one, and a settled row is never overwritten |
| WalletScan.WalkAsync | packages/dotnet/BTCPayServer.Plugins.OpenReceive/Nwc/WalletScan.cs:110-179 | the loop ends at the first page that completes what is expected, is empty, or repeats the one before, or at the cap, and only the first two prove anything |
| WalletScan.WalkExactly | packages/dotnet/BTCPayServer.Plugins.OpenReceive/Nwc/WalletScan.cs:117-178 | a walk reads on until a page proves something or shows the hashes of the one before it, or the page cap is reached; truncated exactly when its last page proves nothing |
| WalletScan.CollectedKept | packages/dotnet/BTCPayServer.Plugins.OpenReceive/Nwc/WalletScan.cs:142-157 | over any pages, a hash is found with the first settled row shown for it, or the last row when none is settled |
| WalletScan.PageRows | packages/dotnet/BTCPayServer.Plugins.OpenReceive/Nwc/WalletScan.cs:134-141 | every row of a page is created in the window and settled unless unpaid ones are asked for, at most 20 a page |
| WalletScan.QuietScan | packages/dotnet/BTCPayServer.Plugins.OpenReceive/Nwc/WalletScan.cs:117-178 | over a wallet nothing happens to, a scan with room for every row is never truncated and finds exactly the listed hashes, each with its row |
| WalletScan.CollectedRows | packages/dotnet/BTCPayServer.Plugins.OpenReceive/Nwc/WalletScan.cs:146-156 | a hash is found exactly when a usable row of it was shown, and what is found for it is such a row |
| WalletScan.ReconcileAsync | packages/dotnet/BTCPayServer.Plugins.OpenReceive/Nwc/WalletScan.cs:48-100 | bad input refused; else the settled walk, the inclusive one for what it missed, their merge, and one check a hash |
| WalletScan.WindowStart | packages/dotnet/BTCPayServer.Plugins.OpenReceive/Nwc/WalletScan.cs:61-68 | the scan starts no later than any hash's last recorded time less the overlap, never before zero, and at one of those |
| WalletScan.KeysExactly | packages/dotnet/BTCPayServer.Plugins.OpenReceive/Nwc/WalletScan.cs:61-65 | each attempted hash is asked for once, in the order of its first attempt |
| WalletScan.ScansAsk | packages/dotnet/BTCPayServer.Plugins.OpenReceive/Nwc/WalletScan.cs:70-80 | the settled view and then the inclusive one, of the same window |
| WalletScan.FoundExactly | packages/dotnet/BTCPayServer.Plugins.OpenReceive/Nwc/WalletScan.cs:72-85 | the second walk looks for what the first left out, the first walk's rows win, and the scan is truncated when a second walk was needed and either was |
| WalletScan.ChecksInTurn | packages/dotnet/BTCPayServer.Plugins.OpenReceive/Nwc/WalletScan.cs:87-101 | one check a hash, in order: its row's state and, for a settled one, its own time; else a proven absence, or nothing |
| WalletScan.NotFoundProven | packages/dotnet/BTCPayServer.Plugins.OpenReceive/Nwc/WalletScan.cs:41-47 | over any run of the wallet, a hash reported `not_found` was in no row of the inclusive view when the second walk began |
| WalletScan.NotFoundAbsent | packages/dotnet/BTCPayServer.Plugins.OpenReceive/Nwc/WalletScan.cs:41-47 | so the wallet then held no invoice of that hash created in the window |
| WalletScan.SettledReported | packages/dotnet/BTCPayServer.Plugins.OpenReceive/Nwc/WalletScan.cs:71-99 | an invoice settled in the window before the first walk is reported settled with its own time or left out, never pending, expired or not found, and left out only when a walk was truncated |
| WalletScan.AttemptKept | packages/dotnet/BTCPayServer.Plugins.OpenReceive/Nwc/WalletScan.cs:40-101 | an attempt whose invoice was created no earlier than its last recorded time less the overlap is never reported `not_found` while the wallet holds it |
| WalletScan.AttemptSettled | packages/dotnet/BTCPayServer.Plugins.OpenReceive/Nwc/WalletScan.cs:40-101 | and if it was settled before the first walk it is reported so, with its own time, unless a walk was truncated |
| WalletScan.IgnoredOffset | packages/dotnet/BTCPayServer.Plugins.OpenReceive/Nwc/WalletScan.cs:171-175 | a wallet that ignores offsets and has rows never proves an absence |
| FakeLsc.FakeLscProvider.Script | packages/dotnet/OpenReceive.FakeLsc/FakeLscProviderCore.cs:83-103 | no steps or an unknown state are refused; else matching orders restart with the steps and lose their attention reason, and an asset queues them |
| FakeLsc.FakeLscProvider.ForceRefundRequired | packages/dotnet/OpenReceive.FakeLsc/FakeLscProviderCore.cs:110-115 | an unknown reason is refused, a known one moves every matching order now and queues for the asset |
| FakeLsc.FakeLscProvider.ForceAttention | packages/dotnet/OpenReceive.FakeLsc/FakeLscProviderCore.cs:121-126 | the same for the two attention reasons |
| FakeLsc.FakeLscProvider.Force | packages/dotnet/OpenReceive.FakeLsc/FakeLscProviderCore.cs:374-389 | the loop over matching orders forces exactly those, in any order of visiting |
| FakeLsc.FakeLscProvider.ForceCreateError | packages/dotnet/OpenReceive.FakeLsc/FakeLscProviderCore.cs:128-132 | the message waits for the next creation, nothing else changes |
| FakeLsc.FakeLscProvider.Apply | packages/dotnet/OpenReceive.FakeLsc/FakeLscProviderCore.cs:392-402 | the order moves, a missing reason gets its default, and the first entry into `completed` calls the payer |
| FakeLsc.FakeLscProvider.Create | packages/dotnet/OpenReceive.FakeLsc/FakeLscProviderCore.cs:293-336 | a forced error is used up, a bad request changes nothing, else the new order takes the asset's queued script and is rendered |
| FakeLsc.FakeLscProvider.Poll | packages/dotnet/OpenReceive.FakeLsc/FakeLscProviderCore.cs:338-358 | one step per poll, then hold; the answer renders the order after the step |
| FakeLsc.FakeLscProvider.Emergency | packages/dotnet/OpenReceive.FakeLsc/FakeLscProviderCore.cs:360-370 | accepted exactly for a known order, the refund choice and an address; then the order is refund-pending |
| SwapProvider.StepInv | packages/dotnet/OpenReceive.FakeLsc/FakeLscProviderCore.cs:83-131 | every control, poll, creation and claim keeps: scriptable states, known reasons, a reason in every refund state, and a cleared attention reason only while a step is left |
| SwapProvider.RunInv | packages/dotnet/OpenReceive.FakeLsc/FakeLscProviderCore.cs:293-402 | so it holds after every run |
| SwapProvider.FaithfulIff | packages/dotnet/OpenReceive.FakeLsc/FakeLscProviderCore.cs:436-521 | an order renders, and decoding status, choice, emergency statuses and refund transaction gives back its state and reasons, exactly when an attention order has its reason |
| SwapProvider.EveryOrderRenders | packages/dotnet/OpenReceive.FakeLsc/FakeLscProviderCore.cs:436-455 | after any run every stored order renders, and one that would lose its reason still has a scripted step |
| SwapProvider.AnswersFaithfully | packages/dotnet/OpenReceive.FakeLsc/FakeLscProviderCore.cs:334-358 | every rendering a poll or a creation answers with loses nothing |
| SwapProvider.EnteredIffWas | packages/dotnet/OpenReceive.FakeLsc/FakeLscProviderCore.cs:392-402 | the log of entered states is exactly the states the order was in after some step |
| SwapProvider.PaidOnceIffCompleted | packages/dotnet/OpenReceive.FakeLsc/FakeLscProviderCore.cs:391-402 | the payer is called once for each order that was ever completed and for no other |
| SwapProvider.ScriptFollowed | packages/dotnet/OpenReceive.FakeLsc/FakeLscProviderCore.cs:78-103 | after a script and n polls with no other control of the order, its state is step min(n, count) |
| SwapProvider.QueueWaits | packages/dotnet/OpenReceive.FakeLsc/FakeLscProviderCore.cs:100-101 | what is queued for an asset stays until it is replaced or an order of that asset takes it |
| SwapProvider.QueuedScriptReachesNext | packages/dotnet/OpenReceive.FakeLsc/FakeLscProviderCore.cs:327-333 | a queued script reaches the next order of its asset and not the one after |
| SwapSteps.ScriptDoes | packages/dotnet/OpenReceive.FakeLsc/FakeLscProviderCore.cs:83-103 | every order the selector names starts the script over without an attention reason, keeps its state until the next poll, and an asset queues it; no steps or an unknown state does nothing |
| SwapSteps.RefundDoes | packages/dotnet/OpenReceive.FakeLsc/FakeLscProviderCore.cs:110-118 | a known reason moves every named order to `refund_required` with it and ends its script; an unknown one does nothing |
| SwapSteps.AttentionDoes | packages/dotnet/OpenReceive.FakeLsc/FakeLscProviderCore.cs:121-126 | the same for attention, which keeps the refund reason |
| SwapSteps.ForcedReachesNext | packages/dotnet/OpenReceive.FakeLsc/FakeLscProviderCore.cs:385-387 | a forced reason waits for the next order of the asset and is what its first poll shows |
| SwapSteps.CreateDoes | packages/dotnet/OpenReceive.FakeLsc/FakeLscProviderCore.cs:293-336 | a new order waits for its deposit with its asset's queued script and reasons, which are queued no longer; nothing else changes |
| SwapSteps.PollDoes | packages/dotnet/OpenReceive.FakeLsc/FakeLscProviderCore.cs:350-358 | a poll takes the next step, fills in a missing reason, pays on the first completion, and touches no other order |
| SwapSteps.ClaimAccepted | packages/dotnet/OpenReceive.FakeLsc/FakeLscProviderCore.cs:360-370 | an accepted claim leaves the order `refund_pending` with the address given, its own reason or else `underpaid`, its script where it stood, and every other order as it was |
| SwapSteps.ClaimShown | packages/dotnet/OpenReceive.FakeLsc/FakeLscProviderCore.cs:436-521 | and it renders as an emergency with a refund chosen, a way back, and no refund transaction |
| SwapSteps.ClaimRefused | packages/dotnet/OpenReceive.FakeLsc/FakeLscProviderCore.cs:340-366 | an unknown order, another choice or a blank address changes nothing |
| SwapSteps.RenderingShows | packages/dotnet/OpenReceive.FakeLsc/FakeLscProviderCore.cs:453-519 | which transactions a rendering shows in which state, and the emergency statuses of each reason |
| SwapSteps.StatusShown | packages/dotnet/OpenReceive.FakeLsc/FakeLscProviderCore.cs:438-452 | which status and choice each state reads as |
| SwapAmounts.DepositIsLeast | packages/dotnet/OpenReceive.FakeLsc/FakeLscAssets.cs:72-76 | the deposit is the least 8-decimal amount that covers the marked-up price, by less than 10^-8 |
| SwapAmounts.DepositCoversPayout | packages/dotnet/OpenReceive.FakeLsc/FakeLscProviderCore.cs:523-540 | at the published in and out rates the deposit never buys less than was asked for |
| SwapAmounts.PriceIs | packages/dotnet/OpenReceive.FakeLsc/FakeLscAssets.cs:31-41 | the price of each coin, with the 1% on top |
| SwapAmounts.ParsesExactly | packages/dotnet/OpenReceive.FakeLsc/FakeLscAssets.cs:88-94 | a text parses exactly when it is digits with at most one point and not zero; the scale is the number of digits after the point |
| SwapAmounts.NumberReads | packages/dotnet/OpenReceive.FakeLsc/FakeLscAssets.cs:88-94 | a number reads digit by digit |
| SwapAmounts.ParseText | packages/dotnet/OpenReceive.FakeLsc/FakeLscAssets.cs:88-94 | parsing every printed digit of a positive amount is exact, scale included |
| SwapAmounts.FormatIsReduced | packages/dotnet/OpenReceive.FakeLsc/FakeLscAssets.cs:79-83 | trimming the text is dropping trailing fraction zeros of the number |
| SwapAmounts.NoLeadingZero | packages/dotnet/OpenReceive.FakeLsc/FakeLscAssets.cs:78-83 | the whole part is printed without leading zeros |
| SwapAmounts.ReducedUnique | packages/dotnet/OpenReceive.FakeLsc/FakeLscAssets.cs:78-83 | a value has one form without trailing zeros |
| SwapAmounts.FormatParses | packages/dotnet/OpenReceive.FakeLsc/FakeLscAssets.cs:79-94 | parsing what was printed returns every positive amount |
| SwapAmounts.FormatInjective | packages/dotnet/OpenReceive.FakeLsc/FakeLscAssets.cs:79-83 | two positive amounts print alike exactly when they are equal |
| Cart.ActiveProductBySku | examples/buttons/shared/server-node/store.ts:223-232 | finds the active row of a well-formed sku, and only fails when there is none |
| Cart.ActiveRows | examples/buttons/shared/server-node/store.ts:212-218 | the catalog is exactly the active rows |
| Cart.NormalizedLines | examples/buttons/shared/server-node/store.ts:482-508 | the loop yields the declared cart, which the next two rows spell out |
| Cart.CartInTurn | examples/buttons/shared/server-node/store.ts:482-508 | row by row of the catalog: a line for each active product with a well-formed sku that is asked for, with min(10, sum of its claims), each claim of v >= 0 counting the whole q with q <= v < q + 1 and any other none |
| Cart.OneClaim | examples/buttons/shared/server-node/store.ts:482-508 | one claim of v >= 1 of an active product is one line of min(10, q) and nothing else |
| Cart.SkuWords | examples/buttons/shared/server-node/store.ts:36 | a sku is one or more words of small letters with single hyphens between them |
| Cart.Tally | examples/buttons/shared/server-node/store.ts:485-500 | capping at every step agrees with capping the sum |
| Cart.Emit | examples/buttons/shared/server-node/store.ts:504-507 | the tally comes out in catalog order, absent products left out |
| Cart.LinesTrusted | examples/buttons/shared/server-node/store.ts:473-481 | every line is an active catalog row with its own price, 1 to 10 of it, one line a sku |
| Cart.CartIgnoresOrder | examples/buttons/shared/server-node/store.ts:486-500 | permuting the claims changes nothing |
| Cart.CartIgnoresSplitting | examples/buttons/shared/server-node/store.ts:495-499 | splitting or merging claims of one sku with the same total changes nothing |
| Cart.CartIgnoresUnknown | examples/buttons/shared/server-node/store.ts:487-490 | a claim that names no active product changes nothing, wherever it stands |
| ShopStore.Database.CreateOrder | examples/buttons/shared/server-node/store.ts:278-332 | the order and all its items are stored, or nothing when a table refuses a row |
| ShopStore.Database.InsertItems | examples/buttons/shared/server-node/store.ts:300-312 | every line becomes an item with its own name and price, up to the first line a table refuses |
| ShopStore.Database.TotalOf | examples/buttons/shared/server-node/store.ts:281-284 | the reduction is the sum of price times quantity |
| ShopStore.Database.ClaimShopOrderPaid | examples/buttons/shared/server-node/store.ts:438-453 | true exactly when this call flips an awaiting order of that reference to paid, with its time and hash |
| ShopStore.Database.PlaceOrder | examples/buttons/shared/server-node/shop-routes.ts:182-193 | an empty cart is refused and changes nothing, any other becomes an order of the normalized lines |
| ShopStore.CartInserts | examples/buttons/shared/server-node/migrations.ts:154-190 | no request can make a cart the tables refuse |
| ShopSteps.AcceptableIff | examples/buttons/shared/server-node/store.ts:281-312 | what the tables take: a known user, a new id, at least one line, one a sku, positive prices and quantities |
| ShopSteps.CreateDoes | examples/buttons/shared/server-node/store.ts:278-332 | the order is stored unpaid with its user, time and total, and one item a line with that line's product id, sku, name, price and quantity; a refused one changes nothing |
| ShopSteps.CostSums | examples/buttons/shared/server-node/store.ts:281-284 | the total is the sum of price times quantity |
| ShopSteps.ClaimDoes | examples/buttons/shared/server-node/store.ts:438-453 | a claim that wins marks that order paid with its own time and hash and leaves every other row |
| ShopSteps.ClaimLost | examples/buttons/shared/server-node/store.ts:438-453 | any other claim changes nothing |
| ShopSteps.StepOtherwise | examples/buttons/shared/server-node/store.ts:428-437 | a claim whose transaction does not commit leaves no trace, a visit only adds the visitor, a catalog edit only replaces the catalog |
| ShopSteps.ReferenceGroups | examples/buttons/shared/server-node/store.ts:35 | a reference is five groups of hex digits between dashes |
| Shop.RunInv | examples/buttons/shared/server-node/store.ts:278-453 | after any run of visits, orders, catalog edits and claims: unique ids, one win a reference, items of known orders, orders paid exactly when won |
| Shop.OneWinner | examples/buttons/shared/server-node/store.ts:423-453 | at most one claim per order commits as winner, and the order carries that claim's time and hash |
| Shop.FeedTotalsAddUp | examples/buttons/shared/server-node/store.ts:368-381 | paid orders are the wins, and buttons sold the sum of the won orders' items |
| ShopSteps.FeedCounts | examples/buttons/shared/server-node/store.ts:368-381 | the feed counts the paid orders, and each item of a paid order by its quantity |
| Shop.TotalsMatchSnapshots | examples/buttons/shared/server-node/store.ts:271-284 | an order's total stays the sum of its own item snapshots, whatever becomes of the catalog |
| Shop.WriteOnce | examples/buttons/shared/server-node/store.ts:438-453 | orders and items are only added, and an order changes once, by being paid |
| Shop.BoughtIffPaid | examples/buttons/shared/server-node/store.ts:438-453 | the user's order is paid exactly when a committed claim paid it |
| Shop.DownloadIffBought | examples/buttons/shared/server-node/shop-routes.ts:120-249 | a file is served exactly to the owner of a paid order, for a sku on it that is on disk, by the base name of that item's image; only the owner hears that an order is not paid, and anybody else's answer is that of an order that does not exist |
| ShopSteps.ImageOf | examples/buttons/shared/server-node/shop-routes.ts:234-236 | the image is the product's own while the catalog has the product, and the one its sku is named by otherwise |
| ShopSteps.BasenameOf | examples/buttons/shared/server-node/shop-routes.ts:237-247 | the base name is the last name in the path, whatever slashes follow it |
| Shop.DownloadContained | examples/buttons/shared/server-node/shop-routes.ts:237-247 | what is served lies in the artwork directory if and only if the image's base name is not `..`, and is an entry of it if and only if that name is not empty or `.` either |
| Shop.ParentServed | examples/buttons/shared/server-node/shop-routes.ts:237-247 | a bought product whose image name is `..` is such an input |
| Cookie.DecodeOfEncode | examples/buttons/shared/server-node/cookie.ts:27 | base64url (section 5 of RFC 4648) decodes back to the bytes |
| Cookie.BothAlphabets | examples/buttons/shared/server-node/cookie.ts:50 | the decoder reads the 64 letters, and `+` and `/` like `-` and `_`, and no other character |
| Cookie.SameBits | examples/buttons/shared/server-node/cookie.ts:27 | three bytes and their four letters are the same 24-bit number |
| Cookie.LettersUnreserved | examples/buttons/shared/server-node/cookie.ts:32-34 | an encoded half holds no dot and nothing a URI encoder changes |
| Cookie.VerifiesExactly | examples/buttons/shared/server-node/cookie.ts:42-57 | a cookie yields a value exactly when it is a nonempty payload that decodes to it, a dot, and the base64url of that value's own HMAC under the secret |
| Cookie.SignedReadsBack | examples/buttons/shared/server-node/cookie.ts:33-57 | reading what was signed returns every value but the empty one, which never verifies |
| Cookie.ParseCookieHeader | examples/buttons/shared/server-node/cookie.ts:60-76 | the jar holds, for each name, the value of its first readable pair, and no other name |
| Cookie.ReadVisitorId | examples/buttons/shared/server-node/shop-routes.ts:114-118 | the visitor is whatever the first readable identity pair verifies to |
| Cookie.PaddedPair | examples/buttons/shared/server-node/cookie.ts:65-70 | white space around a pair does not change its name or value |
| Cookie.PairExactly | examples/buttons/shared/server-node/cookie.ts:64-73 | a part is read exactly when the trimmed text before its first equals sign is a name no object answers for and the trimmed text after it decodes |
| Cookie.IdentityRoundTrip | examples/buttons/shared/server-node/cookie.ts:29-100 | any header whose first readable pair of the name is the serialized one yields the visitor's id back |
| Migrations.Runner.constructor | examples/buttons/shared/server-node/store.ts:391-394 | no step applied yet |
| Migrations.Runner.Migrate | examples/buttons/shared/server-node/store.ts:390-420 | applied ids stay a prefix of the list; the run applies the steps it had not behind it to the database as it finds it, stops at the first that throws keeping what it committed, or counts what it applied |
| Migrations.UpgradedExactly | examples/buttons/shared/server-node/store.ts:403-419 | a run executes exactly the steps from where it began up to the first that fails, each on what the one before left |
| Migrations.BootResumes | examples/buttons/shared/server-node/store.ts:403-419 | whatever is written between boots, a boot runs only steps never applied before, in order, on the database as it stands, and none once the list is done |
| Migrations.QuietRan | examples/buttons/shared/server-node/store.ts:385-389 | with nothing written between them, any interrupted runs leave what one pass over the steps so far makes |
| Migrations.InterruptedRunsConverge | examples/buttons/shared/server-node/store.ts:385-389 | then an undisturbed run leaves the database and the position a single undisturbed run would have |
| Migrations.ProductTable.SeedCatalog | examples/buttons/shared/server-node/migrations.ts:69-96 | the loop is the upsert of each entry in turn |
| Migrations.SeedingShowsCatalog | examples/buttons/shared/server-node/migrations.ts:71-81 | every catalog sku shows the catalog's data and is active, a new one has the id made for its first entry and the time of the seeding, a known one keeps both, no other row moves |
| Migrations.ImageShown | examples/buttons/shared/server-node/migrations.ts:66-91 | an entry shows its own image, or the one its sku is named by |
| Migrations.SeedingAgain | examples/buttons/shared/server-node/migrations.ts:207-219 | seeding again adds no row and changes only the time stamp of the catalog's rows |
| Escapes.UnwrapRecovers | trials/harness/codex.ts:23-30 | unwrapping gives back every command from its single-quoted and its double-quoted form under each of the four shells |
| Escapes.UnwrapsEach | trials/harness/codex.ts:24-30 | so for `/bin/bash` and `/bin/sh`, with `-lc` and with `-c` |
| Escapes.UnescapesExactly | trials/harness/codex.ts:28-29 | in double quotes a backslash goes exactly before a quote, a backslash, a dollar or a backtick |
| Escapes.EscapesExactly | trials/harness/codex.ts:28-29 | and a shell's double quotes put it exactly there |
| Escapes.UnwrapIdentity | trials/harness/codex.ts:24-30 | a command is left alone exactly when it is in none of the wrapped forms |
| Escapes.EscapedIsPerChar | trials/harness/sandbox.ts:62-66 | the four replacements in sequence are one escape per character |
| Escapes.EnvFileOneLine | trials/harness/sandbox.ts:55-68 | the result never spans lines, and a one-line value is written as it is |
| Escapes.EnvFileRoundTrip | trials/harness/sandbox.ts:55-68 | every multi-line value reads back from its double-quoted form |
| Escapes.EnvFileCollision | trials/harness/sandbox.ts:60-68 | two values are written alike exactly when one spans lines and the other is its written form as it stands |
| Escapes.EnvFileShared | trials/harness/sandbox.ts:60-68 | a value shares its written form with another exactly when it spans lines, or reads in double quotes as a value that spans lines and is written so |
| Escapes.QuotedCollides | trials/harness/sandbox.ts:60-68 | a pair that is |

## Left out

- The payment engines, and everything live: HTTP, Nostr and its encryption, Docker, git, files, browsers.
- RedactionLaw.ClearedIff: beyond the lists of `Tractable` only necessity is shown (`RedactionLaw.ClearedNeeds`). For secrets that meet a token, `RedactionOverlaps.OverlapLeaks` and `RedactionCases.PasswordCleared` each go one way.
- Text is a sequence of Unicode scalar values; UTF-16 code units and lone surrogates are not modelled.
- Pool: what `run` does, and the order of errors thrown together. Releases in one `finally` block are separate steps, which allows more interleavings than the source has.
- Blocks: the three regular expressions are parameters; command-pattern heuristics are not modelled.
- Wallet scan: normalizing hashes, fields of a transaction the scan does not read, resuming at an offset, and the scan memo.
- Wallet: description, preimage and bolt11 text, lookup, metadata, 64-bit overflow, seeding over an existing hash inside a run, and the moment between storing a settlement and raising its event.
- Swap provider: tokens (a wrong one answers like an unknown id), request signatures, rate limiting, timestamps, prices as USD text, the payer's own outcome, and the two lock scopes inside one creation. Orders are values in the map, so no aliasing of a stored order is modelled.
- SwapAmounts: `decimal` is exact here; rounding at 28 digits and negative amounts are not modelled.
- Shop: SQL and its planner, `recentOrders` and the JSON payloads, visitor timestamps, the foreign key from items to products (a deleted product is simply not found), and how rows tied on position and price are ordered.
- Cart: a quantity is a real number or not finite; how JavaScript reads a string as a number is not modelled.
- Cookie: padding and other characters inside base64 input, Set-Cookie attributes, and the secret's storage.
- Migrations: concurrent runners, and what each step's SQL does.
- Escapes.EnvFileRoundTrip: multi-line values only; how Compose reads an unquoted line (single quotes, comments, blanks, interpolation) is not modelled.
- Escapes: how a shell reads its input beyond the quoting forms named.
