# origo-web: a model and its proofs

origo-web is a stateless web front end to a git host. This project models the parts of
it that hold an algorithm, a format or a protocol, and proves what they promise, for all
inputs and over all runs. `dafny verify dfyconfig.toml` checks the project.

- **Unified diffs** (`Diff`, `DiffLaws`, `DiffPrint`, `DiffNames`, `DiffRoundTrip`,
  `DiffPatch`, `DiffBudget`): the one-pass line reader, a printer for the form git writes,
  and the theorem that reading undoes printing exactly when a stated condition holds; the
  numbering of rows; the independence of each file from its neighbours; the render budget.
- **The recently opened repositories** (`Session`, `SessionLaws`, `Cookies`, `Browser`): a
  bounded most-recently-used list that lives in a cookie. The codec, what a browser keeps of
  the header lines (section 5 of RFC 6265), the list over whole runs of requests against an
  unbounded history, and what one response's header carries.
- **The visibility cache** (`Visibility`, `Sharing`): the clock, the registry's record,
  the cache and the answers still in flight as one state machine, with its staleness bound
  and the exact condition under which a change is kept; and every sequence of requests
  that share the cache as runs of it.
- **Paths and addresses** (`Url`, `Clients`, `Paths`, `Decimal`): percent-encoding and the
  rule by which Go's `url.URL` chooses between `RawPath` and an escaped `Path` (sections
  2.1 and 3.3 of RFC 3986), the three clients that build on it, and the path normal form.
- **The request protocol** (`Protocol`, `Reading`, `ReadingLaws`, `Writing`, `WritingLaws`,
  `Accounts`, `AccountsLaws`, `Server`): one exchange with its tokens, calls, cookies and
  cache as a class, every handler as a method over it, the routes as one method that calls
  them, what every screen answers said of statuses and payloads alone, and properties of
  whole exchanges.
- **Lists** (`Listing`, `Sequences`): grouping by owner, filtering, the order of references,
  identifiers of copy buttons, and what it is to keep some of a sequence in order.
- `Text` and `Wrappers` hold the string functions of Go's library used here, and `Option`.

Code that updates state in the source is a method here, proved equal to a function; the
functions carry the theorems. Diff text is a sequence of code points; addresses and
cookies are sequences of bytes, one character a byte. Line numbers wrap at 64 bits, as
Go's `int` does.

## Where the code and its own words part

Each of these is a lemma below, with the exact condition under which the code does what
is said of it.

- A deleted line whose text starts with `-- `, or an added one starting with `++ `, is
  read as a name line and leaves no row (`DiffRoundTrip.LineReadsBack`,
  `DiffPatch.DeletedNameLikeLine`).
- A path holding ` b/` is cut at the wrong place when only the `diff --git` line names it
  (`DiffNames.HeaderNamesOnePath`, `DiffPatch.PatchReadsBack`).
- A name git puts in quotes, which by default is any with a control character, a quote, a
  backslash or a character beyond ASCII, is read with its quotes and its mark, wherever it
  stands (`DiffNames.NameLineRead`, `DiffNames.HeaderQuoted`, `DiffPatch.PatchReadsBack`).
- A name that ends in white space loses it, except on a rename with no hunks, whose rename
  lines are read as they stand (`DiffNames.NameLineRead`, `DiffPatch.PatchReadsBack`).
- A text that does not end in a newline loses its last row when that row is a blank
  context line (`DiffLaws.MissingNewline`).
- `OldPath` is said to be set only when a file moved (internal/diff/diff.go:53). It is set
  on every file, to the path itself on those that did not move (`DiffPatch.UnmovedOldPath`).
- `openEvery` turns off the two rules that shut a file. A budget whose `PerFile` is zero is
  replaced by the default, rules and all, so its files stay shut
  (`DiffBudget.OpenEveryExactly`, `DiffBudget.LongFileIsShut`). The commit screen opens only
  `DefaultBudget`, whose `PerFile` is 5000, so no request reaches that case.
- Opening a repository again under a name the list cannot keep erases the name it had
  (`SessionLaws.ReopenedWithoutName`).
- One response is said to carry one line for the list (internal/session/session.go:410-413).
  It does when the list is written last; a clearing after a write leaves two lines, the
  clearing last (`SessionLaws.OneRecentLine`, `WritingLaws.ClearedAfterRemembered`).
- An identifier holding a slash is said to add no segment of its own
  (internal/registry/client.go:250-254). It adds exactly one unless the base path ends in an
  escaped slash, where it is sent under the other escaping (`Clients.RegistryRequest`,
  `Clients.RegistrySegments`). The key client keeps one segment an id when its base needs
  no escaping or the id holds no slash, and otherwise spreads it over as many segments as
  it has pieces (`Clients.KeyOneSegment`, `Clients.KeyPieces`); an id of `.` or `..` is
  left as it is, a dot segment (`Clients.DotSegments`).
- The Origo client puts text that is already escaped into `Path`, which is escaped again:
  a branch `feature/x` arrives as `feature%2Fx` (`Clients.OrigoSegments`,
  `Clients.SlashedRevision`).
- The sign-in page is said to follow the credential the request carried
  (internal/web/page_auth.go:136-138). After the key store or the registry refuses the
  platform's token it follows the Origo token instead (`AccountsLaws.RefusalNotice`,
  `AccountsLaws.RefusedCredentialSignsOut`).
- A refused credential is said to sign in again (internal/web/page_delete.go:133-137). A
  deletion refused with a 401 does so if and only if the refusal names none of the three
  codes that are looked at first; with one, the person stays on the screen and signed in
  (`WritingLaws.DeniedDeletion`, `WritingLaws.CodedRefusalKeepsSession`).
- The visibility screen is said to be drawn for the state the repository is in
  (internal/web/page_visibility.go:149), and is hidden from a reader who may not change it. A
  submission whose choice cannot be read shows it to any reader with a platform token, asks
  nothing, and draws it as private (`WritingLaws.ChoiceShown`, `WritingLaws.HiddenYetShown`).
- Cache keys of two accounts meet exactly when one subject, followed by a NUL, begins the
  other (`Visibility.KeysMeet`).
- A change made here is said to be seen at once (internal/web/page_visibility.go:36-40). It
  is, however requests interleave, if and only if no other answer to the same account about
  the same repository was on its way when it was made
  (`Visibility.ReadYourWritesExactly`); a read that is slower than the change is one, and
  overwrites it (`Visibility.SlowReadOverwrites`, `Visibility.SlowReadRun`).
- A deletion drops the account's cached answer, and a read that is slower than the deletion
  puts it back: it stays dropped if and only if no answer to the account about the repository
  was on its way (`Visibility.DeletionForgottenExactly`, `Visibility.SlowReadRevives`).

## Model

| member | source | states |
|---|---|---|
| Diff.ParseFiles | internal/diff/diff.go:146-214 | the loop over lines, with its open file and two counters, computes the function the diff theorems are about, for every text |
| Diff.MetaLine | internal/diff/diff.go:155-180 | the header cases handle a line exactly when the specification does, with the same file, and touch nothing otherwise |
| Diff.BodyLine | internal/diff/diff.go:181-200 | the hunk and row cases give the same file and counters as the specification |
| Diff.HunkStarts | internal/diff/diff.go:251-269 | the loop over the fields of a hunk header finds the last start on each side |
| DiffLaws.ReadTextConcat | internal/diff/diff.go:151-213 | for every text ending in a newline and every text starting with a file header, reading the two together is reading each and joining the files |
| DiffLaws.HeaderRestarts | internal/diff/diff.go:155-160 | a file header closes the open file and reads what follows as if nothing came before |
| DiffLaws.ClosedFilesAreInert | internal/diff/diff.go:151-204 | no line ever changes a file already closed |
| DiffLaws.FinalNewlineIsTrimmed | internal/diff/diff.go:205-212 | the trim removes exactly the row that splitting a final newline adds |
| DiffLaws.MissingNewline | internal/diff/diff.go:205-212 | a text without its final newline reads the same if and only if it does not end in a blank context row; otherwise exactly that row is lost |
| DiffLaws.HunkNumbering | internal/diff/diff.go:181-200 | for every text, every row after a hunk header is numbered by the header's start plus the rows of its side since, in 64-bit arithmetic, and carries 0 on the side it lacks |
| DiffLaws.CutText | internal/diff/diff.go:146-214 | for every text cut anywhere, as Origo cuts a long one, all files but the last that the cut gives are those of the whole |
| DiffLaws.CountsAreTheRows | internal/diff/diff.go:186-192 | for every text, a file's additions and deletions are its added and deleted rows |
| DiffLaws.StartsFit | internal/diff/diff.go:251-280 | a hunk's starts are never negative and never past the largest int |
| DiffNames.NameLineRead | internal/diff/diff.go:231-248 | a name line as git prints it, with its quotes or its tab, is read as the name if and only if the name needs no quotes and ends in no white space; otherwise as the name trimmed, or as the quoted text |
| DiffNames.HeaderNames | internal/diff/diff.go:219-227 | the file header gives both paths back, less their trailing white space, when the old one holds no side mark |
| DiffNames.HeaderCut | internal/diff/diff.go:219-227 | where the header is cut: at the true boundary if and only if the old path holds no side mark |
| DiffNames.HeaderNamesOnePath | internal/diff/diff.go:219-227 | each name of an unmoved path printed without quotes is read back from the header if and only if the path holds no side mark and ends in no white space |
| DiffNames.HeaderQuoted | internal/diff/diff.go:219-227 | a header whose names are quoted gives a new name that is too long |
| DiffNames.HeaderQuotedNames | internal/diff/diff.go:219-248 | and the names it gives: none and the whole text where no side mark stands in it, otherwise what follows the first mark, and a beginning of what precedes it |
| DiffPatch.UnmovedHeader | internal/diff/diff.go:219-227 | the new name of an unmoved file is read back from its printed header if and only if it needs no quotes, holds no side mark and ends in no white space; the old one, when it needs no quotes, exactly then too |
| DiffNames.HeaderMisread | internal/diff/diff.go:219-227 | a path that holds a side mark gives neither name: the old one comes out too short, the new one another, and too long unless it ends in white space |
| DiffRoundTrip.HunkHeaderStarts | internal/diff/diff.go:251-280 | the starts printed in a hunk header are the starts read from it, whatever the section text |
| DiffRoundTrip.LineReadsBack | internal/diff/diff.go:173-194 | a printed body line reads as its row if and only if it does not look like a name line |
| DiffRoundTrip.LinesLeaveRows | internal/diff/diff.go:173-194 | printed lines leave exactly as many rows as there are lines that do not look like name lines |
| DiffRoundTrip.CleanLinesRead | internal/diff/diff.go:186-200 | lines that do not look like name lines read as their rows, signs and numbers |
| DiffPatch.PatchReadsBack | internal/diff/diff.go:146-214 | for every patch in git's form, under any names, reading what is printed gives the same paths, status, rows, signs, numbers and counts if and only if no line looks like a name line, no name needs quotes, no path only the header names holds a side mark, and no name read from the header or a name line ends in white space |
| DiffPatch.PatchesReadBack | internal/diff/diff.go:146-214 | the same, both ways, for every sequence of patches printed one after another |
| DiffPatch.BegunNames | internal/diff/diff.go:155-180 | which names the lines before the first hunk leave: the true ones if and only if none is quoted, and none is read with a side mark from the header alone or with trailing white space |
| DiffPatch.UnmovedOldPath | internal/diff/diff.go:155-180 | a file that did not move is read with its own path for the old one, which is unset only when the file has no name |
| DiffPatch.DeletedNameLikeLine | internal/diff/diff.go:173-180 | one deleted line, any text: it reads back if and only if the text does not start with two dashes and a space |
| DiffPatch.FinalNewlineMatters | internal/diff/diff.go:205-212 | a printed patch without its last newline reads back if and only if its last row is not a blank context row |
| DiffBudget.Patch.ApplyBudget | internal/diff/diff.go:121-143 | rewriting the files in place gives, file by file, what the budget allows, and adds the dropped files to the count; which bodies that shuts and drops is ShutExactly and DroppedExactly, and what the open ones add up to is OpenFits |
| DiffBudget.Parse | internal/diff/diff.go:108-119 | the parsed patch is the specified view of its text under the effective budget |
| DiffBudget.BudgetKeepsTheFacts | internal/diff/diff.go:108-143 | for every text and budget, order, paths, statuses and counts are the reader's; counts are those of the rows before any are dropped; a body is kept whole or dropped and flagged |
| DiffBudget.DroppedExactly | internal/diff/diff.go:125-142 | a file is flagged exactly when it is past the budget, and a body is missing exactly then |
| DiffBudget.BoundsInForce | internal/diff/diff.go:104-111 | the bounds are those given, unless all three are zero: then 500, 5000 and 20000 lines with nothing forced |
| DiffBudget.ShutExactly | internal/diff/diff.go:121-143 | a file is collapsed if and only if it is unforced, text, kept, and past the bound of one open file or part of a patch past the bound of the whole |
| DiffBudget.OpenFits | internal/diff/diff.go:121-143 | when the patch bound is positive, the changed lines of the open, unforced, kept text bodies sum to at most it; and when the collapse bound is, each of them changes at most that many |
| DiffBudget.TotalsAdd | internal/diff/diff.go:112-116 | the totals of two lists of files are the sums of theirs |
| DiffBudget.TotalsOfOne | internal/diff/diff.go:112-116 | the totals of one file are its own counts and its flag |
| DiffBudget.RenderedFits | internal/diff/diff.go:125-142 | no unforced body that is rendered changes more lines than the bound of one file |
| DiffBudget.FlagsAreCounted | internal/diff/diff.go:121-143 | the number of dropped files is the number of flagged ones, and the sums survive |
| DiffBudget.ViewAddsUp | internal/diff/diff.go:108-143 | the totals are the sums over the files, and the count is the number of flagged files |
| DiffBudget.OpenEveryOpens | internal/web/page_commit.go:130-133 | with the bounds opened no file is shut, and the same bodies are dropped |
| DiffBudget.OpenEveryExactly | internal/web/page_commit.go:130-133 | opening opens every file of every text if and only if the budget's own bound is not zero |
| DiffBudget.LongFileIsShut | internal/diff/diff.go:108-112 | the text on which opening a budget with a zero bound fails |
| Decimal.Itoa | internal/web/page_commit.go:180-192 | for every 64-bit int the 20-cell buffer is never overrun and the loop ends, with the decimal numeral for a natural number and nothing for a negative one |
| Decimal.NumeralValue | internal/web/page_commit.go:180-192 | reading the numeral gives the number back |
| Decimal.NumeralInjective | internal/web/page_commit.go:162-192 | two numbers never share a numeral |
| Listing.CopyList | internal/web/view.go:392-402 | the items kept are exactly those with a value, in order and as often, each otherwise unchanged under a consecutive identifier, and the identifiers are pairwise distinct |
| Listing.IdsDistinct | internal/web/page_commit.go:162-178 | numbered identifiers after any mark are pairwise distinct, for any number of them |
| Listing.NamesAreSorted | internal/web/page_repo.go:146-148 | references are put in order, each as often as it was sent |
| Listing.OneOrder | internal/web/page_repo.go:146-148 | names have one sorted order, so an unstable sort gives the same list |
| Listing.GroupByOwner | internal/web/page_auth.go:485-498 | the map and the slice built in one pass are the groups of the specification |
| Listing.GroupsPartition | internal/web/page_auth.go:485-498 | owners are distinct and in order of first appearance, each group is the non-empty subsequence of its owner's rows, and the sizes sum to the number of rows |
| Listing.OwnersInOrder | internal/web/page_auth.go:485-498 | of any two owners, some row of the one named first comes before every row of the other |
| Listing.GroupedIsListed | internal/web/page_auth.go:485-498 | grouping what any test keeps lists exactly that, under distinct owners in order of first appearance |
| Listing.ListDirectory | internal/web/page_auth.go:407-423 | a row is under its owner if and only if it was sent and, where the answer is the whole directory, matches; owners are distinct and in order of first appearance, rows keep order and multiplicity, and the count is the number of rows kept: all of them when every row matches |
| Session.Manager.Recent | internal/session/session.go:353-370 | the early return at twelve entries reads the first twelve good entries of the cookie |
| Session.Manager.Remember | internal/session/session.go:375-392 | an implausible id changes nothing; a plausible one is put in front of the others, twelve at most; the lines for other cookies keep content and order; and whatever a browser held, the cookie it holds after these lines is the value of that list |
| Session.Manager.Forget | internal/session/session.go:397-405 | the list without the id is what the browser holds after the response, and the lines for other cookies stay |
| Session.Manager.WriteRecent | internal/session/session.go:414-443 | earlier list lines are taken back, every other line stays in place, and the value a browser holds after the lines left is that of the list given, for every list; the line itself is read in LineIsRead |
| Session.Manager.Clear | internal/session/session.go:258-264 | the session and the list are cleared by two lines after whatever was there |
| Session.LineIsRead | internal/session/session.go:431-443 | a browser reads the value of the list from its line, for every list, with the attributes the line is sent with, and drops the cookie if and only if the list is empty |
| Session.SessionIsRead | internal/session/session.go:258-264 | the line that clears the session is read as an age of zero and leaves no value |
| Session.NamesApart | internal/session/session.go:115-121 | no line is both a list line and a session line, with or without the prefix of the secure names |
| Session.LinesParted | internal/session/session.go:415-425 | the lines kept and the lines taken back part the response, each part in order and as often as it was there |
| Session.OthersSelect | internal/session/session.go:397-405 | dropping an id keeps exactly the other entries, in order |
| SessionLaws.CodecRoundTrip | internal/session/session.go:414-468 | every list of at most twelve plausible entries is read back from the value written for it |
| SessionLaws.EditedCookie | internal/session/session.go:353-370 | any string at all reads as at most twelve plausible entries, and writing those is a fixed point |
| SessionLaws.UnreadableIsPassedOver | internal/session/session.go:353-370 | of any string, what is read is the first twelve of the entries of its pieces, in order: a piece that is no entry is passed over and what follows it is read |
| SessionLaws.EntryNeedsID | internal/session/session.go:457-495 | a piece is an entry if and only if what stands before its first equals sign decodes to 1 to 128 letters, digits, dashes, underscores and dots |
| SessionLaws.EntryWithoutName | internal/session/session.go:445-470 | an entry with no name reads with none, and a name that is not an owner and a slug costs the name and not the entry |
| SessionLaws.EntryLength | internal/session/session.go:449-493 | the written length of an entry, exactly, and its bound of 388 |
| SessionLaws.CookieLength | internal/session/session.go:414-493 | a written value is never longer than twelve entries of 388 and eleven spaces |
| SessionLaws.BrowseReads | internal/session/session.go:375-405 | what one request wrote, the next reads: the edited list, without loss |
| SessionLaws.RecentIsPrefix | internal/session/session.go:353-405 | over every run of openings and removals, the list is a prefix of the unbounded history, and twelve at most |
| SessionLaws.RecentIsTwelveNewest | internal/session/session.go:353-392 | over every run of openings from no cookie, the list is the twelve newest of the history |
| SessionLaws.HistoryMeans | internal/session/session.go:375-405 | the history holds each repository opened and not dropped since, once, under the name it was last opened with, newest first |
| SessionLaws.ReopenedWithoutName | internal/session/session.go:375-380 | the name kept is that of the last opening, or none when that name cannot be kept |
| SessionLaws.ResponseCookies | internal/session/session.go:414-443 | over any sequence of writes and clearings on one response, other cookies keep content and order, and the list's lines are the last write and the clearings after it |
| SessionLaws.OneRecentLine | internal/session/session.go:408-443 | the last line is always the last operation's, and it is the only one if and only if that was a write or nothing came before |
| Browser.Follow | internal/session/session.go:353-443 | a browser that starts with no cookie and keeps only the lines it is sent holds, over every run of openings and removals, a prefix of the unbounded history, and twelve at most; over every run of openings, the twelve newest |
| Browser.LastOperationIsKept | internal/session/session.go:408-443 | whatever lines and operations came before, the list a browser holds after a response is the last operation's |
| Browser.WrittenIsRead | internal/session/session.go:353-443 | the next request reads the list written last, for every list that may be kept, and the browser drops the cookie if and only if that is empty |
| Browser.ClearingIsKept | internal/session/session.go:258-264 | a browser holds no session after a response if a clearing was among its operations; otherwise writing the list leaves its session as it was |
| Visibility.KeysMeet | internal/web/page_visibility.go:70-75 | two accounts can share a cache key if and only if one subject and a NUL begin the other |
| Visibility.KeyIsInjective | internal/web/page_visibility.go:70-75 | without NULs a key names one account and one repository, so nobody is served another's answer |
| Visibility.ServedIsRecent | internal/web/page_repo.go:307-342 | over every run, what the cache serves an account about a repository is what the registry gave that account about it, at most the lifetime plus the time in flight ago |
| Visibility.AtomicServedIsFresh | internal/web/page_visibility.go:27-53 | with requests taken one at a time, at most the lifetime ago |
| Visibility.ReadYourWrites | internal/web/page_visibility.go:133-142 | over every run and interleaving, once a change is stored and until somebody changes it again, the cache never contradicts it for that account, under any eviction, when no other answer to the account about the repository was on its way |
| Visibility.SlowReadOverwrites | internal/web/page_repo.go:312-322 | when one was, from any state, the change, its storing and that answer's storing are enabled steps that end in a cache contradicting the registry |
| Visibility.ReadYourWritesExactly | internal/web/page_visibility.go:133-142 | at any point of any run, a change is kept however the run goes on if and only if no other answer to the account about the repository is on its way |
| Visibility.AtomicReadYourWrites | internal/web/page_visibility.go:133-142 | with requests taken one at a time it is always kept |
| Visibility.SlowReadRun | internal/web/page_repo.go:312-322 | the whole run, from an empty cache, in which a slow read undoes a change |
| Visibility.DeletionStays | internal/web/page_delete.go:97-101 | over every run and interleaving, once a deletion is invalidated and while the registry has no answer, the cache holds nothing about the repository for that account, under any eviction, when no answer to it was on its way |
| Visibility.SlowReadRevives | internal/web/page_repo.go:312-322 | when one was, from any state, the deletion, its invalidation and that answer's storing are enabled steps after which the cache serves it |
| Visibility.DeletionForgottenExactly | internal/web/page_delete.go:97-101 | at any point of any run, a deletion is forgotten however the run goes on if and only if no answer to the account about the repository is on its way |
| Sharing.MoveWalks | internal/web/page_repo.go:307-342 | what an overview, a change or a deletion leaves in the cache, for any session, form and answers the registry gives from its record or fails to give, is what at most two enabled steps of the state machine leave |
| Sharing.ServedRuns | internal/web/page_visibility.go:27-53 | the caches over every sequence of requests sharing one cache, among waits, evictions and changes made elsewhere, are those of an atomic run with every step enabled |
| Sharing.OverviewIsFresh | internal/web/page_visibility.go:27-53 | over every such sequence, whatever an overview says of a repository is what the registry gave that account about it less than the lifetime ago |
| Sharing.OverviewAfterChange | internal/web/page_visibility.go:112-144 | over every such sequence, after an account's change and while the record says it, that account's overviews say the new value or neither |
| Sharing.OverviewAfterDeletion | internal/web/page_delete.go:93-101 | over every such sequence, after an account's deletion and while the record has no answer, that account's overviews say nothing about the repository |
| Sharing.OverviewAfterFlip | internal/web/page_repo.go:317-341 | in any interleaving, with no other answer on its way at the change, the overview says the new value or that it could not find out |
| Url.UnescapeEscape | internal/registry/client.go:255-263 | every text, escaped for any place, decodes to itself |
| Url.EscapeUnchanged | internal/origo/client.go:397-402 | escaping leaves a text unchanged if and only if nothing in it needs escaping |
| Url.EscapedPathDecodes | internal/registry/client.go:255-268 | whichever of its two forms an address uses, what is sent decodes to its path |
| Url.RequestKeepsPath | internal/registry/client.go:263-268 | parsing an address that was written and writing it again changes nothing |
| Url.DecodedEnd | internal/registry/client.go:257-258 | a decoded path ends in a slash if and only if its text ends in one or in an escaped one |
| Clients.RegistryURL | internal/registry/client.go:255-263 | the loop over segments gives the decoded and the escaped address, for every base and every list of segments |
| Clients.RegistryRequest | internal/registry/client.go:250-263 | the escaped form is what is sent if and only if the base does not end in an escaped slash |
| Clients.RegistrySegments | internal/registry/client.go:250-263 | every id is one more segment of the request line if and only if the base does not end in an escaped slash or no id holds a slash; and then each segment decodes once to its id |
| Clients.DotSegments | internal/keys/client.go:81-94 | an id escapes to a dot segment if and only if it is one |
| Clients.KeyRequest | internal/keys/client.go:88-94 | what is sent for one key: the segment escaping when the base needs none, the path escaping otherwise |
| Clients.KeyPieces | internal/keys/client.go:88-94 | how many segments the request line has: the base's, and one for the id when the base needs no escaping or one for each piece of the id |
| Clients.KeyOneSegment | internal/keys/client.go:79-94 | the id adds exactly one segment, and that segment decodes to the id, each if and only if the base needs no escaping or the id holds no slash |
| Clients.KeysFrontSegments | internal/keys/client.go:73-78 | the address of the keys is the base, less one slash it may end in, and the two segments of the route |
| Clients.ParseIsParsed | internal/origo/client.go:42-49 | the escaped form of an address that was parsed, when it keeps one, decodes to its path, which is all the next rows ask of a base |
| Clients.OrigoRequest | internal/origo/client.go:397-402 | the Origo client's address is always escaped a second time |
| Clients.OrigoSegments | internal/origo/client.go:397-402 | each segment decodes once to the escaped id, which is the id if and only if escaping leaves it unchanged |
| Clients.SlashedRevision | internal/origo/client.go:282-292 | a revision holding a slash never arrives as itself |
| Paths.CleanPath | internal/web/view.go:303-317 | pushing and popping a slice of segments computes the recursive resolution of the path |
| Paths.StackResolves | internal/web/view.go:303-317 | the stack machine equals the recursive resolution, for every list of segments and every number of pending steps up |
| Paths.CleanOfIsClean | internal/web/view.go:303-317 | the result holds no empty, dot or dot-dot segment, and its segments are the resolved ones |
| Paths.CleanIdempotent | internal/web/view.go:303-317 | cleaning twice is cleaning once, and a path is its own cleaning if and only if it is clean |
| Paths.EscapePath | internal/web/view.go:356-362 | overwriting the slice's cells escapes every segment once |
| Paths.EscapedPathReadsBack | internal/web/view.go:356-362 | for a clean path, decoding segment by segment and cleaning gives it back |
| Paths.PathCrumbs | internal/web/view.go:335-353 | one crumb a segment, each with its own link and the last with none |
| Paths.CrumbsAreAncestors | internal/web/view.go:320-353 | the linked crumbs are the repeated parents of the path, outermost first, ending at its parent; taking parents ends at the root |
| Paths.CrumbLinks | internal/web/view.go:335-353 | a crumb's link is the tree address of that very ancestor |
| Paths.CrumbsKeepRef | internal/web/view.go:335-371 | and ends in nothing, or in a query that decodes to the reference being read |
| Paths.PrefixesAreAncestors | internal/web/view.go:320-325 | the repeated parents of a path are its proper prefixes by segment |
| Protocol.Classify | internal/origo/errors.go:39-67 | an answer's class is absence exactly for 403, 404 and 410, a refused credential exactly for 401, too large exactly for 413, and a body exactly when it can be read |
| Protocol.Exchange.Begin | internal/session/session.go:208-221 | the session is read once, and clearing it is the only thing a failed load does |
| Protocol.Exchange.CallOrigo | internal/origo/client.go:397-428 | a caller must send the token minted for Origo, or none when none was; the call is the next answer in order |
| Protocol.Exchange.CallRegistry | internal/registry/client.go:255-297 | a caller must send a platform token; nothing is asked where no registry is configured, a 404 reads as no registry except on a deletion, and a change and a deletion take any success whatever its body |
| Protocol.Exchange.CallKeys | internal/keys/client.go:149-182 | a caller must send a platform token |
| Protocol.Exchange.ReadFailed | internal/web/page_repo.go:80-96 | the answer depends on the class of the failure alone, and the session is cleared only for a 401 to a call that carried a token; which class gets which answer is ReadingLaws.FailedMeans |
| Protocol.Exchange.ReadFailedIn | internal/web/page_repo.go:108-127 | an absence inside a repository is answered under its name; everything else as elsewhere |
| Protocol.Exchange.OpenRepo | internal/web/page_repo.go:36-53 | one call; on success the repository is remembered and nothing is answered, otherwise the request is answered |
| Protocol.Exchange.RequirePlatform | internal/web/page_auth.go:96-112 | no session and an issuer that would not mint are told apart |
| Protocol.Exchange.VisibilityOf | internal/web/page_repo.go:307-342 | what is said comes from the cache when it holds an answer and from the registry's otherwise; the registry is asked only then; the new cache is the old one with a fresh answer stored under this account and repository, or the old one |
| Reading.HandleRefs | internal/web/page_repo.go:132-148 | status, page and cookies are a function of the classes of the answers, with the references in order; the platform is asked nothing, the cache is left alone, and tokens and clearings keep the routing invariant |
| Reading.HandleLog | internal/web/page_repo.go:461-498 | the same for the log |
| Reading.HandleTree | internal/web/page_file.go:53-113 | the same for a directory, with an empty repository told by its references first |
| Reading.FindFile | internal/web/page_file.go:361-378 | the entry found is the first file of that path in its directory, and a path that names none is the one absence |
| Reading.HandleBlob | internal/web/page_file.go:279-356 | the same for a file; a file past the limit is not fetched |
| Reading.HandleRaw | internal/web/page_file.go:438-475 | the same for the bytes of a file |
| Reading.HandleCommit | internal/web/page_commit.go:57-125 | the same for a commit, compared with its first parent or with nothing |
| Reading.HandlePatch | internal/web/page_commit.go:196-219 | the same for a patch; a commit with no parent has none |
| Reading.HandleCompare | internal/web/page_commit.go:236-267 | the same for a comparison; with a revision missing nothing is asked |
| Reading.HandleByID | internal/web/page_repo.go:61-77 | an old address goes to the name the reader's own credential resolves, and to nothing otherwise |
| Reading.HandleHome | internal/web/page_auth.go:392-447 | the directory is shown under its owners, filtered only when whole; every failure but a refused credential degrades to the same screen; a deleted name is repeated only when shaped like one |
| Reading.PickReadme | internal/web/page_repo.go:346-362 | the readme is the first Markdown one, or else the first plain one |
| Reading.RenderOverview | internal/web/page_repo.go:214-282 | the overview is a function of the classes of the answers, and a readme that cannot be read costs only its text |
| Reading.HandleOverview | internal/web/page_repo.go:214-282 | the same with the visibility, and the whole new cache and every question to the registry; a clone address goes to the name without its suffix and reads nothing |
| Reading.RenderTokens | internal/web/page_tokens.go:126-165 | the token screen, whether asked for or refused, from classes alone |
| Reading.HandleTokens | internal/web/page_tokens.go:111-123 | with no token nothing is asked |
| Reading.MintRefused | internal/web/page_tokens.go:255-269 | a repository that is absent and one the reader may not administer get one answer |
| Reading.HandleTokensPost | internal/web/page_tokens.go:194-250 | an expired form reads nothing, and the repository is read before it is minted against |
| ReadingLaws.FailedMeans | internal/web/page_repo.go:80-127 | a failed read, by its status: 401 is the sign-in page and clears the session if a token was sent; 403, 404 and 410 are a 404, under the repository's name inside it; no answer, no status and the 500s are a 502 for an outage; the rest a 502 for a fault; and none is a success |
| ReadingLaws.OpenMeans | internal/web/page_repo.go:36-53 | a repository is opened if and only if its read can be decoded, and is then remembered under its owner and slug; otherwise the request is answered so |
| ReadingLaws.RefsScreenMeans | internal/web/page_repo.go:405-424 | references: a success if and only if the repository, the branches and the tags were read, in that order the first failure deciding the answer; and then branches and tags are each what was sent for them, in order |
| ReadingLaws.LogScreenMeans | internal/web/page_repo.go:461-498 | the log: a success if and only if both reads were answered, with the commits and the next page as sent; otherwise the first failure decides |
| ReadingLaws.TreeScreenMeans | internal/web/page_file.go:53-113 | a directory: the same, with its entries as sent; in a repository with no head the references are read first, and one with no branches is said to hold no commits |
| ReadingLaws.FindEntryMeans | internal/web/page_file.go:361-378 | the entry found is the first of that path that is no directory, and none is found if and only if there is none |
| ReadingLaws.BlobScreenMeans | internal/web/page_file.go:279-356 | a file: the first entry of its path; past 50 MiB, or refused as too large, it is shown so with no bytes; its bytes are shown when they are text; and every other failure is answered by its status |
| ReadingLaws.RawScreenMeans | internal/web/page_file.go:438-475 | the bytes of a file as sent, a page for one Origo calls too large, and every other failure by its status |
| ReadingLaws.CommitScreenMeans | internal/web/page_commit.go:57-125 | a commit: a success if and only if it was read and, when it has a parent, what it changed was; with exactly those payloads |
| ReadingLaws.PatchScreenMeans | internal/web/page_commit.go:196-219 | a patch: the text as sent, and a 404 for a commit with no parent |
| ReadingLaws.CompareScreenMeans | internal/web/page_commit.go:236-267 | a comparison: the text as sent when both revisions are named, and no call when one is not |
| ReadingLaws.ByIDMeans | internal/web/page_repo.go:61-77 | an old address redirects if and only if its repository was read, to its escaped owner and slug and the rest of the address |
| ReadingLaws.DirectoryMeans | internal/web/page_auth.go:407-423 | the directory drawn: a row is there if and only if it was sent and, where the filter applies, matches; and all are counted when every row matches |
| ReadingLaws.HomeScreenMeans | internal/web/page_auth.go:392-447 | the home screen: that directory when it was read; the sign-in page for a 401, an error only when a token was sent; and for every other failure the list opened before |
| ReadingLaws.ReadmeMeans | internal/web/page_repo.go:346-382 | the readme is the first Markdown one, or the first plain one where there is no Markdown one; its bytes are shown if and only if it is at most 512 KiB and they could be read |
| ReadingLaws.OverviewScreenMeans | internal/web/page_repo.go:214-282 | the overview: a success if and only if the references and, unless it is empty, the top directory and the log were read, the first failure deciding otherwise; and then with exactly those payloads |
| ReadingLaws.VisibilityDrawn | internal/web/page_repo.go:307-342 | what is said of visibility, for every cache and answer: nothing without a platform token or a registry that knows the repository, what the cache or else the answer says, and otherwise that it is unknown |
| ReadingLaws.OverviewAsks | internal/web/page_repo.go:307-342 | the registry is asked if and only if the repository was read, a platform token minted, a registry configured and nothing cached; and the cache is left alone unless it then answers |
| ReadingLaws.OverviewIsKept | internal/web/page_visibility.go:45-75 | an answer given to an overview is what the same account's overviews say for thirty seconds, and none of them asks |
| ReadingLaws.TokensScreenMeans | internal/web/page_tokens.go:111-165 | the token screen: the directory or else the list opened before, and the repository it is scoped to with its records, each if and only if it was read; only a 401 to the directory takes the screen away |
| ReadingLaws.TokensPostMeans | internal/web/page_tokens.go:194-269 | a token is shown if and only if the form is valid and complete, an Origo token was minted and both calls were answered, and then the value minted; otherwise the first thing amiss decides |
| Reading.RefusalLooksAbsent | internal/web/page_repo.go:80-127 | two requests whose answers differ only in which of 403, 404 and 410 they are get the same status, page and cookies: references and log |
| Reading.RefusalLooksAbsentInTrees | internal/web/page_file.go:53-113 | the same on directories |
| Reading.RefusalLooksAbsentInFiles | internal/web/page_file.go:279-475 | the same on files and their bytes |
| Reading.RefusalLooksAbsentOnCommits | internal/web/page_commit.go:57-219 | the same on commits and patches |
| Reading.RefusalLooksAbsentElsewhere | internal/web/page_auth.go:392-447 | the same on comparisons, old addresses and the home screen |
| Reading.RefusalLooksAbsentOnOverview | internal/web/page_repo.go:214-282 | the same on the overview, for every cache and registry answer |
| Reading.RefusalLooksAbsentOnTokens | internal/web/page_tokens.go:111-269 | the same on both token screens, whichever calls are refused |
| Writing.VisibilityFailed | internal/web/page_visibility.go:162-172 | the session is cleared only for a refused credential; absence, refusal and no registry are one answer |
| Writing.Administers | internal/web/page_delete.go:114-128 | the reader goes on exactly when the registry says they may change the repository, and is answered otherwise |
| Writing.HandleVisibility | internal/web/page_visibility.go:88-109 | the screen is shown only to an administrator, and the cache is left alone |
| Writing.HandleVisibilityPost | internal/web/page_visibility.go:112-144 | what is answered, what the registry is asked, and the whole new cache: the change written through on success and nothing otherwise |
| Writing.HandleDelete | internal/web/page_delete.go:58-67 | the screen is shown only to an administrator |
| Writing.HandleDeletePost | internal/web/page_delete.go:70-102 | what is answered, what the registry is asked in order, the cookies and the whole new cache, for every session, form and sequence of answers |
| Writing.DeleteRefused | internal/web/page_delete.go:140-153 | a refusal named by its code keeps the person on the screen with what they typed, before its status is looked at |
| Server.Serve | internal/web/server.go:165-216 | on every route, for every session, form and sequence of answers: the answer is that of the route's own screen; each call carries the token minted for its own service and the session token is sent nowhere; the session is cleared only right after a call whose own credential was refused; and a response that clears it on a route that is no sign-out follows a failed load or holds such a refusal |
| Server.OwnScreens | internal/web/server.go:165-216 | a page that answers 200 is of the kind of screen its route is for, or the sign-in page |
| WritingLaws.ConfirmedExactly | internal/web/page_delete.go:70-93 | a deletion is confirmed if and only if the form is valid, the repository resolved, a platform token minted, the registry said it may be changed, and its exact name typed |
| WritingLaws.RemovalIsGuarded | internal/web/page_delete.go:70-96 | the registry is asked to delete if and only if that holds, once, last, and about the repository the first question was about |
| WritingLaws.RedirectsIffDeleted | internal/web/page_delete.go:93-102 | the answer redirects if and only if a permitted deletion succeeded, with any body or none |
| WritingLaws.DeletedIsForgotten | internal/web/page_delete.go:97-101 | then the response carries one list line, the browser keeps exactly the other entries in order, and the cache left holds nothing to serve this account at any later time; what other requests may put back is the subject of Visibility.DeletionForgottenExactly |
| WritingLaws.DeniedDeletion | internal/web/page_delete.go:140-153 | a deletion refused for its credential signs the person out if and only if the refusal names none of the three codes looked at first; with one they stay on the screen, signed in, with what they typed |
| WritingLaws.CodedRefusalKeepsSession | internal/web/page_delete.go:140-153 | the request on which it does not: a 401 that says Origo refused is a 409 here and clears nothing |
| WritingLaws.NotDeletedStaysListed | internal/web/page_delete.go:70-102 | a submission not carried out leaves the repository in front of the list, unless the session was cleared for a refused credential |
| WritingLaws.RedirectsName | internal/web/view.go:107-112 | a repository's address is two segments that decode to its owner and slug, and the deleted name decodes from the list's address |
| WritingLaws.HomeNamesTheDeleted | internal/web/page_delete.go:164-176 | the list repeats the name of a deleted repository if and only if its owner and slug are each shaped like one |
| WritingLaws.FlipShowsAtOnce | internal/web/page_visibility.go:133-143 | after a change the same account's overview says the new value, whatever the registry would answer, until the lifetime ends |
| WritingLaws.FlipIsOnesOwn | internal/web/page_visibility.go:61-75 | for subjects without NULs, no other account's and no other repository's answer changes, and an account with no subject stores nothing |
| WritingLaws.RedirectsIffFlipped | internal/web/page_visibility.go:112-144 | the answer redirects if and only if the write succeeded, with any body or none, which happens exactly for a valid form, a resolved repository, a platform token, a known target and a registry that took it |
| WritingLaws.OnlyAnswersAreShown | internal/web/page_repo.go:284-342 | public or private is said if and only if an answer is in hand, and then as that answer says; a failure is never read as either, and which failures read as unknown |
| WritingLaws.ClearedAfterRemembered | internal/session/session.go:408-413 | a credential refused after a repository was opened leaves two lines for the list, the clearing last |
| WritingLaws.SameGate | internal/web/page_delete.go:104-128 | absent, refused and not administered open the same way |
| WritingLaws.WithheldLooksAbsent | internal/web/page_visibility.go:88-109 | when the visibility screen or the deletion screen is asked for, or a deletion submitted, answers, cookies and calls are the same for a repository that is absent, withheld or merely not the reader's to change |
| WritingLaws.WithheldLooksAbsentOnChange | internal/web/page_visibility.go:112-144 | when a change of visibility is submitted, they are the same for a repository that is absent and one that is withheld |
| WritingLaws.ScreenShown | internal/web/page_visibility.go:88-109 | the visibility screen, asked for, is shown if and only if the registry says the reader may change the repository, and is drawn as the registry says |
| WritingLaws.ChoiceShown | internal/web/page_visibility.go:112-132 | a submission shows it if and only if the form is valid, the repository resolved, a platform token minted and the choice unreadable; nothing is asked, and it is drawn as private |
| WritingLaws.HiddenYetShown | internal/web/page_visibility.go:101-131 | every reader with a platform token whom the screen is hidden from is shown it by an unreadable submission |
| WritingLaws.FailureMeans | internal/web/page_visibility.go:162-172 | a refusal of the registry, by its status: 401 ends the session; 403, 404 and no registry are a 404; anything else a 502 |
| WritingLaws.ScreensMean | internal/web/page_visibility.go:88-109 | both screens, asked for: shown with the registry's own answer to whoever may change the repository; otherwise the first thing amiss decides; and what is asked |
| WritingLaws.ChangeMeans | internal/web/page_visibility.go:112-144 | a submitted change, for every form and answer: what it answers, in the order things are looked at, and what the registry is asked |
| WritingLaws.DeletionMeans | internal/web/page_delete.go:70-153 | a submitted deletion, for every form and answer: what it answers, with the sentence of each code, and a redirect whose query decodes to the owner and slug deleted |
| AccountsLaws.FormShown | internal/web/page_new.go:71-114 | the creation form is shown if and only if the reader has a platform token and the registry has just listed names, with those names, and one of them chosen unless another was asked for |
| AccountsLaws.FormShownAgain | internal/web/page_new.go:122-191 | a refused submission shows the form again only with a valid form token, a platform token and the names the registry listed after the refusal, with what was typed and the sentence of the refusal |
| Accounts.RenderNew | internal/web/page_new.go:87-114 | the form carries the names just read, the first chosen when none was; a refused credential ends the session |
| Accounts.HandleNewPost | internal/web/page_new.go:122-160 | what is answered, what the registry is asked in order, and the cookies, for every form and sequence of answers |
| Accounts.CreateRefused | internal/web/page_new.go:164-191 | which refusal shows the form again and under which status and sentence, in the source's order |
| Accounts.PickRemoving | internal/web/page_keys.go:143-152 | a key is named exactly when it is on the list just read |
| Accounts.RenderKeys | internal/web/page_keys.go:108-136 | every render reads the list once; a key not on it is a 404 and a store that cannot list offers no confirmation |
| Accounts.HandleKeys | internal/web/page_keys.go:97-103 | the list, and the page that asks before a removal, change nothing |
| Accounts.HandleKeysPost | internal/web/page_keys.go:160-191 | what is answered and what the store is asked, in both steps, as one function of the answers; what that function says of each answer is AccountsLaws.KeysPostMeans |
| Accounts.RefuseKey | internal/web/page_keys.go:252-282 | a refused add keeps what was pasted, with the status and sentence of its code |
| Accounts.HandleKeyRemovePost | internal/web/page_keys.go:205-230 | what is answered and what the store is asked |
| Accounts.HandleSignIn | internal/web/page_auth.go:220-228 | a reader with a token is sent on, and nothing is read for anybody |
| Accounts.HandleSignOut | internal/web/page_auth.go:253-264 | the session is cleared if and only if the form is valid |
| Accounts.LogoutNotify | internal/session/session.go:302-309 | the session is cleared if and only if the address was loaded in a frame or by a browser that does not say |
| AccountsLaws.CreationIsAskedOnce | internal/web/page_new.go:122-160 | a creation is asked for if and only if the form is valid, first and once, under the names typed; what follows only reads |
| AccountsLaws.RedirectsIffCreated | internal/web/page_new.go:150-159 | the answer redirects if and only if the registry created, to the name the registry gave, which is then in front of the list |
| AccountsLaws.ConfirmedKeyIsTheParsedKey | internal/web/page_keys.go:154-191 | the line shown for confirmation is the one parsed, and confirming it in a later request stores that line and no other |
| AccountsLaws.KeysChangeOnlyWhenTold | internal/web/page_keys.go:97-230 | a key is added only by a valid confirmation and removed only by a valid removal of that id |
| AccountsLaws.NoTokenAsksNothing | internal/web/page_auth.go:85-112 | with no platform token none of the nine screens of the registry and the key store asks anything; and with a valid form, a resolved repository and a registry, each answers that the issuer would not mint behind a live session, and with the sign-in page otherwise |
| AccountsLaws.KeysAreCurrent | internal/web/page_keys.go:105-136 | every key screen, whether asked for, refused or confirming, carries the list as read after everything else that was asked, and names a key to remove only when it is on it |
| AccountsLaws.KeysMean | internal/web/page_keys.go:97-152 | the list and the question before a removal, for every answer of the store: a key is asked about if and only if it is on the list, and is a 404 otherwise |
| AccountsLaws.KeysPostMeans | internal/web/page_keys.go:160-282 | the add redirects if and only if the form is valid, a platform token was minted, the confirmation was given, the paste is not blank and the store took it; a paste that parses is shown to be confirmed; and each refusal gets the status and sentence of its code with the paste kept, a 401 the end of the session |
| AccountsLaws.KeyRemovePostMeans | internal/web/page_keys.go:205-230 | the removal redirects if and only if the form is valid, a platform token was minted and the store took it; 401 ends the session, 404 and everything else have their own status and sentence |
| AccountsLaws.NewMeans | internal/web/page_new.go:71-114 | the creation form, asked for, for every answer of the registry |
| AccountsLaws.NewPostMeans | internal/web/page_new.go:122-191 | a submitted creation, for every form and answer: what it answers, in the order things are looked at, with the status and sentence of each refusal |
| AccountsLaws.NamesThatFit | internal/web/page_new.go:35 | a name that may be created is a side of a name the home screen repeats that starts with a letter or a digit, and one the list can keep |
| AccountsLaws.RefusalNotice | internal/web/page_auth.go:143-162 | after any refused platform credential the session is cleared, and the page says a credential was refused if and only if the Origo token had been minted |
| AccountsLaws.RefusedCredentialSignsOut | internal/web/page_visibility.go:162-166 | a refused platform credential is answered so, and nothing more is asked, on every call but the deletion, whose refusals are looked at by code first |
| Text.TrimSpaceTwice | internal/web/page_keys.go:165 | what has been trimmed is not trimmed again |

## Left out

- HTTP, JSON, logging, templates, static assets and start-up: each call downstream is an arbitrary answer (a body that can be read, a status, or none), and a screen is the data behind it.
- The sign-in library: reading a session, refreshing, minting and checking a form token are arbitrary outcomes, and a token is known only by whom it is addressed to.
- The cache library: a value may be forgotten at any time (the `Evict` step), and is served only within its lifetime.
- The registry's own decisions: the state machine takes a change only from an administrator, and lets anybody outside change the record at any time.
- A browser is taken to keep a cookie of any length it is sent, to return its value as it was, and to drop one whose age is zero; domains, expiry dates and the passing of a cookie's age are not modelled.
- Invalid UTF-8 in a diff: its text is a sequence of code points here.
- The bodies of binary patches: the reader treats them as any other line, and the printer does not print them. Names are quoted as git does by default, with its option for paths on.
- The rows made of references, and paging: a reference here is its short name, and the next page is opaque.
- Which file names are readmes: an entry says of itself whether it is a Markdown readme, a plain one or none; the matching of rows by a query, and its lower-casing, is a parameter.
- `expandLinks` and the addresses in `fileViews`; `sourceLines`, `isObjectID`, `newPinView`, `permalink`: formatting and single-branch facts.
- `returnTo` and `safeReturn`: where a sign-in or sign-out goes on to is a parameter, and so is what an old address carries after its identifier.
- `humanSize`, `relTime`, `absTime`, `plural`, `algorithmName`, the fixed tables and the configuration: formatting and constants.
- Presentation fields of a page (titles, stale notices, links, sizes, dates): a screen here keeps the fields that depend on answers and tell outcomes apart.
- The number of lifetimes offered for a token and the choice among them: whether the form names a repository and a scope is one parameter.
- Protocol.Exchange.CallOrigo: records which kind of thing is asked and not its address or query, because the addresses are the subject of `Clients`.
- `handleOpen`, the start and the callback of a sign-in, assets, the page for agents and the page for an unknown address: they read the session at most, and ask no service.
- Reading.HandleByID: the rest of the address is a parameter, because it is taken from the request and not computed.
- Reading.HandleTokensPost: that the form was readable and that it named a known scope are one condition, because both answers are the same page.
- `http.Error` after an expired form is the status alone.
