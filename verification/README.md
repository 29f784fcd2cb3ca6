# Verification of python_tools

Dafny models of five parts of the repository, with proofs of the properties their
documentation and callers rely on. `dafny verify dfyconfig.toml` checks everything.

| file | models |
|---|---|
| `Searching.dfy`, `Streams.dfy`, `Promises.dfy`, `Spawning.dfy`, `Lines.dfy`, `Running.dfy` | pexpect's searchers, the expect loop over a growing buffer, the file-like reads and `run` |
| `Chunking.dfy`, `Windows.dfy` | when the cutting of the output into chunks, or a search window, changes nothing |
| `CommandLine.dfy` | the quoting state machine of `split_command_line` and the language it reads |
| `Lifecycle.dfy` | `isalive`, `wait`, `kill`, `terminate`, `close` over a kernel free to answer anything |
| `Allocation.dfy`, `Providers.dfy`, `Interleavings.dfy`, `Keys.dfy` | the lock-file credential allocator, by one provider and in every interleaving of many |
| `Diffs.dfy` | `SplitPatch`, `filterDiffByPattern` and `GetBaseFiles` on the lines of a diff |
| `Multipart.dfy` | `EncodeMultipartFormData` and a parser for what it prints |
| `Credentials.dfy` | Keystone v3 credentials: aliasing assignments, filling from a token, reset |
| `Teardowns.dfy` | the class-level setup and its stack of teardowns |

A child process is the list of events its reads will meet: non-empty chunks of output
and timeouts, then EOF for ever. Code that mutates objects is a class whose methods are
proved against functions of the old state; the laws are lemmas about those functions.

## What turned out to be conditional

Where a law fails on some inputs, the lemma states the exact condition.

- Chunk independence needs less than "no search string is a substring of another": it
  holds for a list if and only if no prefix of one of its own texts already gives a hit
  that the whole text does not give (`Chunking.ChunkSafetyIsExact`). A suffix, for one, is harmless.
- A window of size w is invisible for chunks of up to c bytes and a string s if and only
  if w >= c + |s| - 1; `Windows.WindowBoundIsExact` has the condition for any list. A window of 0 means everything to `searcher_string` and nothing to
  `searcher_re`.
- `expect` and `expect_list` differ from their shared description: `expect` searches without
  a window by default, whatever the object's `searchwindowsize` is.
- Joining quoted arguments with spaces loses an empty last argument; ending the line with a
  space keeps it.
- A second `close()` is free only after a successful one. After a failed one the descriptor
  is already closed: a later `close()` raises OSError, or, if its number was given out again,
  closes someone else's descriptor.
- A command line that begins with white space splits into an empty first argument.
- A forced request (`force_new`) that finds every candidate locked leaves the account it
  already had under two keys. Clearing then releases that account twice, and in between
  another provider can take it: `Interleavings.LostRequestCanShareAnAccount` is such a run.
- `get_hash` compares what the attributes read as now, after aliasing and filling, with the
  accounts file. It comes back to the right account, for every dictionary order and token, if
  and only if the account's arguments do not contend, its token's domain takes over no domain
  name that it gives, and no other account matches it or lacks one of its attribute names
  (`Providers.HashIsRecoveredExactly`). An account scoped to a domain whose name is not its
  user's stays locked, and so do those to be released after it (`Providers.TakenNameIsNotFound`,
  `Interleavings.MissedIsLeaked`). An account whose tenant and project names differ can be
  taken for the one that has its project's name for both, whose lock then goes while another
  provider holds it (`Interleavings.NamesakesCanShareAnAccount`).
- An account that makes no valid credentials is found out only after its lock was taken, and
  the lock stays.
- So an accounts file is safe to share, apart from forced requests in vain, if and only if all
  its accounts are valid, recoverable and told apart for each identity version that a provider
  uses (`Interleavings.PoolsAreSafeExactly`).
- A request with no candidates made while the lock directory is absent leaves an empty
  directory behind (the IndexError comes after `mkdir`); nothing else does.
- `SplitPatch` keeps backslashes in `Index:` names and ignores empty names, the other two
  loops do not; they agree if and only if the headers have neither.
- Multipart bodies come back if and only if names are clean and no value has a line that
  begins with the boundary.
- The v3 constructor depends on dictionary order if and only if two arguments contend for
  an attribute; this counts None against a value for the two domain pairs.
- A token with a project sets an unset user domain to the project's domain, not the user's.

## Model

| member | source | states |
|---|---|---|
| Searching.FirstIsFirst | automation/pexpect.py:1247-1251 | the position-by-position search finds a leftmost match, lowest list index first, exactly when some pattern matches at all |
| Searching.FirstIsUnique | automation/pexpect.py:1247-1251 | whatever is leftmost and of lowest index is the search result |
| Searching.FindFrom | automation/pexpect.py:1665-1665 | str.find: the least matching position from a start on, or -1, with none before it |
| Searching.Searcher.constructor | automation/pexpect.py:1598-1613 | splits a pattern list into indexed patterns and the last EOF and TIMEOUT indices |
| Searching.Searcher.Search | automation/pexpect.py:1630-1674 | for both searchers and any window, the result is the first match of the permitted part; without a window the string searcher, looking only at fresh bytes and a margin, still finds the first match of the whole buffer |
| Searching.Searcher.OffsetSkipsNothing | automation/pexpect.py:1657-1665 | the positions that the fresh-bytes offset leaves out hold no match |
| Searching.BestOfOneMore | automation/pexpect.py:1666-1668 | an entry replaces the best match only by a strictly earlier one, so ties go to the lowest index |
| Searching.WindowsAgree | automation/pexpect.py:1743-1746 | the two searchers agree for a window size on every buffer if and only if the size is positive |
| Streams.CallConserves | automation/pexpect.py:1363-1409 | one call: consumed text plus buffer equals old buffer plus bytes read; a timeout consumes nothing; EOF leaves nothing |
| Streams.CallKeepsTotal | automation/pexpect.py:1363-1409 | one call: consumed text, buffer and unread data together are the old buffer and unread data |
| Streams.SessionConserves | automation/pexpect.py:1345-1409 | over any adaptive sequence of calls every byte read is in one outcome, in order, or still in the buffer |
| Promises.ExpectEnds | automation/pexpect.py:1345-1409 | every call reads chunks while no pattern of the list matches the permitted part, and ends with the leftmost match and the lowest list index there, at the end of the events, or at a timeout; before, after, buffer and unread data accordingly |
| Promises.EntriesAreTheList | automation/pexpect.py:1598-1613 | the searcher has exactly the patterns of the list, in order, each with its own list index |
| Promises.LastIndexIsMarker | automation/pexpect.py:1602-1612 | the index reported for EOF or TIMEOUT is the last place of that marker, -1 if there is none |
| Chunking.HitIsStable | automation/pexpect.py:1253-1259 | for a chunk-safe list, more output never changes a hit |
| Chunking.CallIsWholeSearch | automation/pexpect.py:1345-1396 | a call on a chunk-safe list that does not time out equals one search of the whole stream, however cut |
| Chunking.SessionsIgnoreChunks | automation/pexpect.py:1345-1396 | two runs of one adaptive program over the same bytes cut differently see the same outcomes and leave the same stream, if no call times out |
| Chunking.ChunkSafetyIsExact | automation/pexpect.py:1253-1259 | every cutting of every stream gives the same answer if and only if the list is chunk-safe |
| Chunking.SubstringFreeIsChunkSafe | automation/pexpect.py:1253-1259 | a list in which no string is a substring of a different one is chunk-safe |
| Chunking.FoobarDependsOnChunks | automation/pexpect.py:1253-1259 | the documented example 'foobar' before 'foo' is not chunk-safe |
| Windows.WindowIsInvisible | automation/pexpect.py:1363-1381 | a positive window of at least chunk + pattern - 1 bytes, with the first buffer inside it, gives the same result as none |
| Windows.WindowBoundIsExact | automation/pexpect.py:1363-1381 | for any list of patterns and chunks of up to c bytes a positive window is invisible if and only if it holds c bytes and every hit-free part of a pattern's text that one chunk may complete |
| Windows.WindowBoundIsTight | automation/pexpect.py:1661-1664 | for one non-empty string that is: if and only if it holds at least c + string - 1 bytes |
| Lines.LinesRebuild | automation/pexpect.py:874-891 | lines concatenate to the text; each but possibly the last ends in its only CRLF |
| Lines.LinesAreUnique | automation/pexpect.py:874-891 | there is no other such cutting of a text |
| Spawning.Spawn.ReadNonblocking | automation/pexpect.py:820-843 | one read takes the next event; with none left it is EOF, again and again |
| Spawning.Spawn.ExpectLoop | automation/pexpect.py:1345-1409 | the loop, searching only fresh bytes, ends as if each search covered the whole permitted buffer; buffer, before, after, index and exception are the outcome's |
| Spawning.Spawn.ExpectExact | automation/pexpect.py:1327-1343 | the same with string search and the object's window by default; on the caller's own list, the index reported is that of the first entry that matches leftmost, or of the last marker, or the exception is raised; match_index, before, after and flag_eof accordingly |
| Spawning.Spawn.ExpectList | automation/pexpect.py:1313-1325 | the same as the loop with re search and the object's window by default |
| Spawning.Spawn.ExpectRe | automation/pexpect.py:1233-1311 | the promise of exact search with re search and no window by default |
| Spawning.Spawn.Read | automation/pexpect.py:847-872 | returns the first min(size, remaining) bytes of the stream, all without a size, and takes just those; before is empty when size bytes matched; a timeout takes nothing |
| Spawning.Spawn.Readline | automation/pexpect.py:874-891 | returns and takes the first line of what remains |
| Spawning.Spawn.Readlines | automation/pexpect.py:910-921 | returns all lines of what remains; a timeout loses the lines read so far and leaves the later ones |
| Spawning.ReadsOne | automation/pexpect.py:868-887 | the calls behind the file-like reads depend on the stream, not on its chunks |
| Running.Run | automation/pexpect.py:228-255 | output, answers sent and final stream are those of the calls up to the first that ends in EOF or timeout |
| Running.RunGathersAll | automation/pexpect.py:228-255 | what a run gathers is exactly what it read, each byte once; after EOF that is everything |
| Running.RunAnswersMatches | automation/pexpect.py:228-255 | each call starts where the one before stopped, all but the last match, and each match is answered by the response of the pattern it reports |
| CommandLine.SplitCommandLine | automation/pexpect.py:1790-1843 | the loop computes the state machine's result |
| CommandLine.FragmentIsRead | automation/pexpect.py:1811-1839 | from outside quotes, a plain, escaped or quoted fragment adds exactly its value |
| CommandLine.WordIsRead | automation/pexpect.py:1811-1839 | a word and the white space after it add exactly one argument |
| CommandLine.SplitReadsCommands | automation/pexpect.py:1790-1843 | any words, however quoted and spaced, come back if and only if the line does not end in an empty word |
| CommandLine.SplitReadsEveryLine | automation/pexpect.py:1790-1843 | every line is white space and words, the last perhaps cut short by a backslash or inside quotes; the result is an empty first argument for the white space, the words, and what there is of the last |
| CommandLine.QuotingRoundTrip | automation/pexpect.py:1790-1843 | quoted arguments joined by spaces come back if and only if the last is non-empty; with a space after each, always |
| CommandLine.QuotedTextComesBack | automation/pexpect.py:1811-1839 | between single or double quotes everything but that quote is kept |
| Strings.SpaceCodes | automation/pexpect.py:1816-1816 | white space is tab to carriage return, and the space |
| Lifecycle.Process.Ask | automation/pexpect.py:1130-1159 | isalive asks once, or twice if the first answer was silent, each time with the blocking option exactly if EOF was met |
| Lifecycle.Process.IsAlive | automation/pexpect.py:1112-1173 | tells whether the child is reaped; True only after two silent answers; blocks only after EOF; exceptions only after a failed call or a reported stop |
| Lifecycle.Process.Wait | automation/pexpect.py:1085-1110 | returns exactly if isalive found the child alive and the blocking call reports its end, then the exit code or None for a signal; an OSError exactly if a call failed; a stop overwrites the exit status; before EOF only its last call may block |
| Lifecycle.Process.KillChild | automation/pexpect.py:1175-1183 | sends the signal exactly after two silent answers, and tells whether that failed |
| Lifecycle.Process.Climb | automation/pexpect.py:1053-1073 | signals sent are a prefix of HUP, CONT, INT and, if forced, KILL; False only after all of them |
| Lifecycle.Process.Terminate | automation/pexpect.py:1044-1083 | True if and only if the child is reaped, when it returns; False only after the whole ladder or a failed call, and a last look at a living child; signals are a prefix of HUP, CONT, INT and, if forced, KILL; an OSError that escapes is of the first or the last look, never of kill |
| Lifecycle.Process.Close | automation/pexpect.py:652-669 | succeeds if and only if the object ends closed, the child then being reaped; again is free; after a failure a later close is an OSError that asks nothing of the kernel, or closes a foreign descriptor of the same number and goes on like the first |
| Lifecycle.Drive | automation/pexpect.py:1044-1183 | in any program, nothing is asked of the kernel after the reap, and terminated and the one status set stay |
| Allocation.GetHashDict | automation/automation/common/accounts.py:65-108 | the pool describes the account file: its digests, and per role exactly the entries that grant it by role or type |
| Allocation.GetMatchHashList | automation/automation/common/accounts.py:152-183 | the loops compute the candidate set, or fail on an unknown role |
| Allocation.CandidatesAreRight | automation/automation/common/accounts.py:152-183 | candidates are exactly the listed accounts with every role asked for and no admins unless asked for; fails exactly on a role nobody has |
| Allocation.CandidatesByText | automation/automation/common/accounts.py:83-100 | the same in the texts of the accounts file: types "admin", "operator" and "reseller_admin" stand for the configured roles and other types for none |
| Allocation.AdminsAreKeptApart | automation/automation/common/accounts.py:172-183 | an account of type "admin" is never a candidate unless the admin role is asked for, and is one when that alone is |
| Allocation.LockDir.CreateHashFile | automation/automation/common/accounts.py:121-127 | creates the lock file exactly if there is none |
| Allocation.LockDir.GetFreeHash | automation/automation/common/accounts.py:129-150 | with its shortcut for an absent directory, still takes the first free candidate; otherwise reports all owners, or the IndexError |
| Allocation.TakeIsRight | automation/automation/common/accounts.py:129-150 | the hash taken is the first free candidate and only it is locked, in the taker's name; fails if and only if no candidate is free, then with the owner of each |
| Allocation.LockDir.RemoveHash | automation/automation/common/accounts.py:201-210 | removes that lock, and the directory with the last one |
| Allocation.TidyKeptExactly | automation/automation/common/accounts.py:133-137 | "directory exists iff some lock does" is kept except exactly when there is neither directory nor candidate |
| Providers.MadeOfNames | automation/automation/common/cred_provider.py:79-98 | credentials have the account's attribute names, and with version 3 the configured user domain exactly if the account mentions no domain |
| Providers.UsableExactly | automation/automation/auth.py:641-672 | which accounts make credentials, for either version: with version 3, one whose only domain attribute is an id needs ids |
| Providers.GetHash | automation/automation/common/accounts.py:212-225 | the first account, in the dictionary's order, that agrees with what the initial attributes read as now, or the source's failure |
| Providers.LookupExactly | automation/automation/common/accounts.py:212-225 | a search finds an account in every dictionary order if and only if all accounts can be compared and it alone agrees |
| Providers.HashIsRecoveredExactly | automation/automation/common/accounts.py:212-225 | the allocated hash is recovered for every order of the arguments, every run of tokens and every order of the dictionary if and only if the arguments do not contend, the scope takes over no domain name given, and no other account matches or lacks a name |
| Providers.AlikeAccountsAreToldApart | automation/automation/common/accounts.py:212-225 | distinct accounts with the same attribute names are told apart, so their pool is recoverable if and only if each keeps its own attributes |
| Providers.HashIsRecovered | automation/automation/common/accounts.py:212-225 | in a recoverable pool the search returns the allocated hash, whether the credentials are filled, refilled or just reset |
| Providers.TakenNameIsNotFound | automation/automation/common/accounts.py:212-225 | for an account scoped to a domain that renames its user's domain the search fails, whatever the orders and tokens |
| Providers.ScopedAccountIsUsable | automation/automation/auth.py:383-387 | such an account: a domain id, and a user domain name that is not the domain's |
| Providers.NamesakeIsFound | automation/automation/common/accounts.py:212-225 | credentials of an account whose tenant and project names differ, the project's applied last, are taken for those of its namesake |
| Providers.Accounts.GetCreds | automation/automation/common/accounts.py:190-199 | takes a free candidate for the roles or fails; if no valid credentials can be made of it, fails with the lock taken |
| Providers.Accounts.GetPlainCreds | automation/automation/common/accounts.py:233-245 | answers from the dictionary, else allocates and stores |
| Providers.Accounts.GetCredsByRoles | automation/automation/common/accounts.py:247-262 | the same by roles; a forced request first moves the old entry, and leaves it moved if it fails |
| Providers.AnswerIsRight | automation/automation/common/accounts.py:190-262 | an answer is the entry of the dictionary and locks nothing, or a free candidate that makes credentials and is now locked; otherwise the failure says which: unknown role, none free, rejected |
| Providers.AnswerKeepsStocked | automation/automation/common/accounts.py:233-262 | what the dictionary holds stays within the accounts file |
| Providers.Accounts.RemoveCredentials | automation/automation/common/accounts.py:227-231 | releases the lock of whatever account the search finds, or fails with it |
| Providers.Accounts.ClearIsolatedCreds | automation/automation/common/accounts.py:264-266 | releases entry after entry up to the first search that fails; in a recoverable pool exactly the locks of the dictionary |
| Providers.ClearedExactly | automation/automation/common/accounts.py:264-266 | in any pool the locks of the accounts found go, up to the first search that fails, which is the failure reported |
| Providers.ClearedReleases | automation/automation/common/accounts.py:264-266 | in a recoverable pool clearing succeeds and releases exactly the locks of the accounts the credentials were made of |
| Keys.KeyTextIsInjective | automation/automation/common/accounts.py:249-261 | distinct dictionary keys print distinct texts |
| Interleavings.MovedKeyIsNew | automation/automation/common/accounts.py:257-259 | the key a forced request moves to never collides |
| Interleavings.AllocationAdds | automation/automation/common/accounts.py:256-262 | an allocation adds one account to the dictionary and loses none |
| Interleavings.AnswersAreOwn | automation/automation/common/accounts.py:233-262 | whatever happens in between, a provider gets the same account twice if and only if it asked for the same, primary, alternate or those roles, and forced no new one since |
| Interleavings.RejectedIsLeaked | automation/automation/common/accounts.py:194-199 | an account that makes no credentials stays locked with no holder |
| Interleavings.MissedIsLeaked | automation/automation/common/accounts.py:264-266 | a search that finds another account leaves its own lock with no holder, one that fails all locks not yet released |
| Interleavings.StepIsSafeExactly | automation/automation/common/accounts.py:129-266 | one step keeps "no account held twice, locks are exactly what is held, naming the holder" if and only if it is no forced request in vain, takes no account that makes no credentials, and its search does not miss |
| Interleavings.RunsAreSafeExactly | automation/automation/common/accounts.py:129-266 | every interleaving of any number of providers, each with its own identity version, is safe throughout if and only if it has no such step |
| Interleavings.PoolsAreSafeExactly | automation/automation/common/accounts.py:129-266 | for any mix of the given identity versions, every run without a forced request in vain is safe if and only if for each version every account makes credentials, is recovered from them and is told from the others |
| Interleavings.AllIsReleased | automation/automation/common/accounts.py:264-266 | once all providers are cleared the locks are those found at the start |
| Interleavings.LostRequestCanShareAnAccount | automation/automation/common/accounts.py:256-266 | with the only account of any sound pool, a run in which a forced request in vain ends with two providers holding it |
| Interleavings.NamesakesCanShareAnAccount | automation/automation/common/accounts.py:212-266 | a run without forced requests in which clearing releases another provider's lock: two providers end up holding one account and a lock has no holder |
| Diffs.SplitLinesCuts | fpga_ssd_backup/api/upload.py:2413-2413 | splitlines(True) loses nothing and cuts at every break |
| Diffs.CutsComeBack | fpga_ssd_backup/api/upload.py:1044-1044 | lines so cut, concatenated, split into the same lines |
| Diffs.LinesEndAtBreaks | fpga_ssd_backup/api/upload.py:2413-2413 | lines end at LF, CR or CR LF, all but perhaps the last, and have no other break |
| Diffs.TrimTakesEnds | fpga_ssd_backup/api/upload.py:2417-2417 | strip takes all white space from both ends and nothing else |
| Diffs.AfterFirstColon | fpga_ssd_backup/api/upload.py:2416-2416 | the name is what follows the first colon |
| Diffs.Slashes | fpga_ssd_backup/api/upload.py:2423-2423 | exactly the backslashes become slashes |
| Diffs.NameIsRead | fpga_ssd_backup/api/upload.py:2416-2423 | from a header line the name is read whatever white space is around it, backslashes as slashes for the other readers |
| Diffs.ReadHeader | fpga_ssd_backup/api/upload.py:2414-2427 | which lines open a piece, and under what name |
| Diffs.SplitPatch | fpga_ssd_backup/api/upload.py:2410-2437 | the loop computes the pieces |
| Diffs.SplitIsExact | fpga_ssd_backup/api/upload.py:2414-2437 | exactly the named "Index:" lines and the named property headers of a file other than the open one begin a piece, so a property header of the open file stays with it |
| Diffs.PiecesAreTheSplit | fpga_ssd_backup/api/upload.py:2410-2437 | there is no other such split of the lines |
| Diffs.SplittingLosesNothing | fpga_ssd_backup/api/upload.py:2410-2437 | the piece texts concatenate to the diff from the first line that names a file |
| Diffs.PiecesStartWithTheirHeader | fpga_ssd_backup/api/upload.py:2427-2432 | every piece starts with a header line of its own name |
| Diffs.FilterPass | fpga_ssd_backup/api/upload.py:1014-1030 | one pass keeps the lines under wanted headers |
| Diffs.FilterDiffByPattern | fpga_ssd_backup/api/upload.py:1002-1060 | include then exclude is one filter by both; without either the diff is unchanged |
| Diffs.KeptIsWellCut | fpga_ssd_backup/api/upload.py:1044-1044 | dropping pieces joins no two lines |
| Diffs.TwoPasses | fpga_ssd_backup/api/upload.py:1014-1058 | filtering twice is filtering once by both conditions |
| Diffs.GetBaseFiles | fpga_ssd_backup/api/upload.py:1070-1090 | the keys are the names of all header lines |
| Diffs.NamesAgreeExactly | fpga_ssd_backup/api/upload.py:1070-1090 | piece names equal those keys if and only if the headers are clean |
| Diffs.FilterAgreesExactly | fpga_ssd_backup/api/upload.py:1014-1060 | for all patterns filtering keeps exactly the texts of the pieces that pass, if and only if the headers are clean |
| Multipart.Form.EncodeMultipartFormData | fpga_ssd_backup/api/upload.py:763-786 | the joined lines are the body the multipart grammar describes |
| Multipart.Form.DelimiterIsFound | fpga_ssd_backup/api/upload.py:772-781 | in a clean part the first delimiter is the one written after it |
| Multipart.Form.RoundTrip | fpga_ssd_backup/api/upload.py:763-786 | a parser recovers the exact lists if and only if no name has a quote or line break and no value a boundary line |
| Multipart.Form.MessageComesBack | fpga_ssd_backup/api/upload.py:763-786 | the same with the boundary read from the content type that is returned |
| Multipart.Form.EncodingIsInjective | fpga_ssd_backup/api/upload.py:763-786 | different clean lists never encode to the same body |
| Multipart.Form.QuotedNamesCollide | fpga_ssd_backup/api/upload.py:775-776 | with quotes in names two different file lists share a body |
| Multipart.Form.BoundariesInValuesCollide | fpga_ssd_backup/api/upload.py:766-772 | a boundary line in a value makes one field of two |
| Multipart.UploadIsValid | fpga_ssd_backup/api/upload.py:763-791 | the script's own boundary and header texts satisfy what the results assume |
| Credentials.AssignReads | automation/automation/auth.py:609-639 | what each attribute reads after one assignment |
| Credentials.V3Credentials.SetAttr | automation/automation/auth.py:609-639 | the conditional setting of aliases has that effect |
| Credentials.V3Credentials.constructor | automation/automation/auth.py:523-538 | applies the arguments in dictionary order |
| Credentials.AppliedIsFinal | automation/automation/auth.py:532-538 | for consistent arguments the state has a closed form with no order in it |
| Credentials.OrderIndependenceExactly | automation/automation/auth.py:523-538 | the state after construction is the same for every order if and only if no two arguments contend, and exactly then every argument reads as given in every order |
| Credentials.V3Credentials.Reset | automation/automation/auth.py:578-584 | whatever happened since, the state is that after construction |
| Credentials.AliasesKeptExactly | automation/automation/auth.py:609-639 | an assignment keeps tenant and project equal and the domain pairs set alike if and only if it does not unset a set domain attribute |
| Credentials.AliasesKeptInRuns | automation/automation/auth.py:609-639 | every sequence of non-None assignments keeps them |
| Credentials.V3Credentials.FillCredentials | automation/automation/auth.py:365-396 | the fill, assignment by assignment |
| Credentials.FillIsExact | automation/automation/auth.py:365-396 | any fill gives each unset attribute exactly the token's value and changes no set one, except that a new domain name replaces the user's and project's |
| Credentials.FillIsAdditiveExactly | automation/automation/auth.py:365-396 | any fill keeps what was set if and only if the token brings no new domain name that differs |
| Credentials.FillSetsAll | automation/automation/auth.py:365-396 | all user fields, and those of the token's scope, are set |
| Credentials.FillIsIdempotent | automation/automation/auth.py:365-396 | filling again changes nothing |
| Credentials.FilledIsValidExactly | automation/automation/auth.py:641-672 | filled credentials are valid if and only if there is a password and the domain scope is not made of empty texts; valid ones stay valid unless a domain with neither id nor name is brought |
| Credentials.ValidAsDocumented | automation/automation/auth.py:641-672 | valid are exactly the combinations the documentation lists |
| Credentials.MakesValidExactly | automation/automation/auth.py:641-672 | whether the constructed credentials are valid, told from the arguments alone, whatever their order |
| Credentials.RefillKeeps | automation/automation/auth.py:105-112 | through any number of fills only the first domain that comes along changes anything set, and only the domain names |
| Credentials.GivenIsKeptExactly | automation/automation/auth.py:365-396 | in every order and through any number of fills for one scope the attributes read as they were given if and only if no arguments contend and the scope takes over no given domain name |
| Credentials.RefillV2Keeps | automation/automation/auth.py:279-289 | version 2 fills change nothing that was given |
| Credentials.FillV2IsExact | automation/automation/auth.py:279-289 | a version 2 fill sets tenant and user where they are unset, and nothing else |
| Teardowns.TestClass.TearDownClass | automation/testcases/test.py:276-312 | pops and calls in reverse order up to an exception that can not be caught, and lets the right one escape |
| Teardowns.TestClass.SetUpClass | automation/testcases/test.py:247-274 | which teardowns are registered and called, and what escapes, for every failing step |
| Teardowns.TeardownDiscipline | automation/testcases/test.py:253-312 | every teardown is called once in reverse order if and only if none but the last called raises outside Exception; the first such exception escapes, and without one the setup exception or else the first |
| Teardowns.FirstRaisedIsFirst | automation/testcases/test.py:304-305 | the exception kept is the first raised |

## Left out

- ptys, select, fork and exec, terminal settings, clocks and sleeps: a read meets the next event, and a timeout may be any of them.
- General regular expressions: patterns are literals and "any n bytes"; the match object itself is not kept.
- The catch-all handler of `expect_loop`, which drops what was read since the call began.
- `run` with EOF or TIMEOUT patterns, callbacks, or a pattern that can match nothing. With an EOF pattern, or a pattern that can match nothing, `run` may loop for ever.
- Other processes that wait for the same child, and wait statuses that are neither exit, signal nor stop.
- `use_default_creds`, failures of token requests, service clients and network lookups after a lock is taken, `NotLockingAccounts`, and use of a provider after it was cleared.
- Accounts with attributes outside the thirteen, or with values that are not texts, and tests that assign to the attributes of credentials. All tokens of one account are scoped to the same domain, or all to none; those of version 2 name a tenant.
- The order of `list(set(roles))` is taken as canonical: a request carries its role list. The digest may be any function; entries with equal digests share a slot, as in the source.
- File globbing behind the patterns, character sets of file names, and the contents `GetBaseFile` returns.
- Guessing of content types: any function of the file name whose result has no carriage return.
- Encoding of unicode values, HTTP, prompts and version control commands of the upload script.
- Unknown keyword arguments of the credentials constructor (InvalidCredentials), and attributes outside the thirteen.
- Tokens, URLs and catalogs of the auth providers, and the one-shot alternate part of `auth_request`.
- Log messages, and their level for an AttributeError of the resource cleanup, which is re-raised like any other.
- Teardowns that register further teardowns, and the base classes' own setUpClass and tearDownClass.
- The SSD driver interface, the load scripts and the service clients: mostly calls into code that is not part of this model.
