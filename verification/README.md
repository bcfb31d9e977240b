# A verified model of the PvPGN server core

PvPGN is a game server for Battle.net and Westwood Online clients. This project models five parts of it in Dafny
and proves what they are meant to guarantee. `dafny verify dfyconfig.toml` checks everything.

**Attributes** (`AttrView`, `FlatFile`, `Writers`, `AttrCache`). Accounts are lazily loaded lists of key/value
attributes over a storage back end, with dirty bits, a global queue of dirty groups, a global queue of loaded groups in
order of access, timed save and flush passes that stop early, and a default group that lookups fall through to.
`AttrLayer` is the cache with its queues as fields. What a reader sees of a group is its `View`. The main result,
`Serve`, says that over every sequence of requests the cache answers as one plain map per account would, that saves
and flushes bring what they should into storage, and that storage is what the writers of the back end make of it if
they can carry out all sets. The invariant `Inv` holds what
the queues promise: dirty groups are exactly those in the dirty queue, in the order they became dirty; loaded groups are
exactly those in the loaded queue, the accessed ones in order of access; dirty groups are loaded; clean attributes
equal storage; keys are unique ignoring case. `FlatFile` has the text of a flat account file, escapes included, and
`Writers` what the two back ends make of a write.

**Ladder games** (`LevelWalk`, `QueueSearch`, `QueueRemoval`, `MapPrefs`, `MapLists`, `TeamOrder`, `Matchmaker`,
`OpponentLevel`, `RouteBarrier`). A search walks the level lists of a queue in a zig-zag, with a window of levels and
a mask of map preferences that shrink with every entry taken. `QueueSearch` states the search as one pass over the
entries on offer and proves it safe and maximal; `Matchmaker.Queue` has the loops, the player slots and the removal
from the queue. `TeamOrder` has the in-place reordering of the players over the teams, `OpponentLevel` the levels that
results are scored against, and `RouteBarrier` the protocol by which the players of a game wait for each other.

**Numbers** (`Decimal`, `FixedPoint`, `DigitCount`, `DecimalText`, `ExtendedProduct`). The integer kernels of the
bundled fmt library, each proved against plain decimal notation or plain multiplication.

**Accounts** (`AccountIndex`). Two hash tables and the largest uid, proved to answer like a scan over all accounts.

**Channels and aliases** (`ChannelLookup`, `Channels`, `AliasExpansion`, `AliasTemplates`). The recursive lookup of
channels with overflow copies and how somebody enters one, and the expansion of command aliases in a growing buffer,
with what the documented placeholders stand for.

Where the code does not do what its comments or its purpose suggest, the model follows the code and states the exact
condition under which the code does meet its purpose. `NullComesBack`, `QuoteCutsValue`, `FlushWritesNothing`,
`UnfairPair`, `UnfairFour`, `PastTheCount`, `ThreeTeamsWrong`, `NinthPlayerReadiesAgain`, `StalledGame`,
`EarlyReportIsLost`, `NameCollides`, `NobodyAdmitted` and `NegativeWord` are inputs that show the difference.

- `AttrView.WriteSqlExactly`: a null value is never written to an SQL table, and long or quoted ones are changed.
- `AttrCache.AttrLayer.FlushForced`, `AttrCache.AttrLayer.Destroy`: on flat files a flush tells the default group by the
  first four characters of its path, so that with both directories under one prefix nothing is ever flushed, and a
  destroyed group is not written and stays in the queues. `AttrCache.AttrLayer.MarkedOnFiles`: it is so exactly if
  the directory of the accounts begins like the default path.
- `FlatFile.FileKeepsAccount`: a value with a quote is cut when its file is read back.
- `LevelWalk.WalkInRange`, `QueueSearch.ReadsBehindExactly`: the level guard admits MAX_LEVEL itself, one more than
  there are lists.
- `TeamOrder.LaterDraft`: no level decides any reordering round behind the first. `TeamOrder.SecondRoundOfTwo`: the
  second round of two teams always swaps. `TeamOrder.FourTeamDrafts`:
  three families of orders of the values compared over four teams are not shared out fairly.
- `OpponentLevel.ThreeTeamsExactly`: with three arranged teams the first opponent's level is overwritten.
- `RouteBarrier.ReadyOnceExactly`, `RouteBarrier.ReadyReachesAll`: with more than eight players READY is repeated and
  does not reach everyone. `RouteBarrier.StallsExactly`: it never comes if the last player awaited leaves.
  `RouteBarrier.ReadyInAnyGame`: it comes exactly with a report that counts and leaves nobody to wait for.
- `MapLists.DrawsFromQueue`: a ticked slot that the queue does not have leads to the first map of the whole table.
- `ChannelLookup.AskingAgain`: a full family answers two calls with the same fresh copy exactly if the name due for
  that copy leads nowhere yet and the family admits members, or that name is the one asked for.
- `AliasExpansion.DefinedExactly`: a placeholder with a negative first word reads before the offsets.
- `DecimalText.LocalArrayFits`: long grouped numbers do not fit the local array of one overload.

## Model

| member | source | states |
|---|---|---|
| AttrView.CanonicalIgnoresCase | src/bnetd/attrgroup.cpp:374-409 | keys that differ only in ASCII case lead to the same canonical key, rewritten prefixes included |
| AttrView.CanonicalByCase | src/bnetd/attrgroup.cpp:374-409 | the canonical key from the folded key alone: a dynkey prefix becomes record, and every other key is the folded one |
| AttrView.EscapeIdempotent | src/bnetd/attrgroup.cpp:374-409 | escaping an escaped key changes nothing, so falling through to the default group may skip it |
| AttrView.Search | src/bnetd/attrgroup.cpp:433-447 | the loop over the cached list finds the first attribute of that key, ignoring case, or none |
| AttrView.PromoteKeepsOverlay | src/bnetd/attrgroup.cpp:439-444 | moving a found attribute one place forward changes no lookup |
| AttrView.CacheRowKeepsOverlay | src/bnetd/attrgroup.cpp:449-452 | caching a stored row under a key not yet cached changes no lookup |
| AttrView.AddIsPut | src/bnetd/attrgroup.cpp:523-533 | a new dirty attribute at the head of the list shows as one put into the plain map, and keys stay unique |
| AttrView.ReplaceIsPut | src/bnetd/attrgroup.cpp:515-533 | a new value on a cached attribute shows as one put into the plain map |
| AttrView.WriteBackIsOverlay | src/bnetd/attrgroup.cpp:200-222 | writing the whole list of a fully loaded flat-file account, or only the dirty attributes of a row store, leaves storage equal to what readers saw |
| AttrView.WriteSqlExactly | src/bnetd/storage_sql.cpp:396-515 | the SQL writer passes over null values, cuts long ones and replaces single quotes: it leaves storage equal to what readers saw exactly if no dirty null stands for a row that exists and every dirty value is short enough and without single quotes |
| AttrView.NullComesBack | src/bnetd/storage_sql.cpp:440-443 | a friend name set to null, as when friends are moved from names to uids, is still in the table and shows again once the cache is dropped |
| FlatFile.EscapeChars | src/common/util.cpp:353-424 | the loop computes the escaped text, at most four characters for one |
| FlatFile.UnescapeChars | src/common/util.cpp:427-513 | the loop with its octal digits computes the unescaped text, never longer than the escaped one |
| FlatFile.EscapeRoundTrip | src/common/util.cpp:353-513 | unescaping what was escaped gives every C string back |
| FlatFile.EscapeForms | src/common/util.cpp:363-420 | printable characters but backslash and quote keep their form, seven control characters have their letters, all others take three digits |
| FlatFile.BadEscapeStays | src/common/util.cpp:442-506 | a backslash before no known letter and no three octal digits from 1 to 255 stays, and so does what follows it |
| FlatFile.LineReads | src/bnetd/file_plain.cpp:85-142 | a written line comes back as nothing if the key is empty, and otherwise as the key and value up to their first quotes |
| FlatFile.LineRoundTrip | src/bnetd/file_plain.cpp:85-142 | a line gives back its key and value exactly if the key is not empty and neither has a quote |
| FlatFile.LineComplete | src/common/util.cpp:61-115 | file_get_line returns exactly the text up to a newline that no backslash precedes |
| FlatFile.LineGoesOn | src/common/util.cpp:61-115 | a line that ends in a backslash goes on with the next one, without the backslash and the break |
| FlatFile.ReturnsDropped | src/common/util.cpp:61-115 | carriage returns make no difference to the entries of a file, wherever they stand |
| FlatFile.EntryExactly | src/bnetd/file_plain.cpp:123-142 | a line holds an entry exactly if it has six characters or more and a quote in front of a key |
| FlatFile.SpacesAround | src/bnetd/file_plain.cpp:132-139 | white space around the equals sign makes no difference to the value |
| FlatFile.LastEntryCounts | src/bnetd/attrgroup.cpp:498-539 | of several entries for one attribute, ignoring case and rewritten prefixes, the last counts |
| FlatFile.FileRoundTrip | src/bnetd/file_plain.cpp:52-155 | a written file reads back as the pairs that went in exactly if every one can be stored |
| FlatFile.QuoteCutsValue | src/bnetd/file_plain.cpp:128 | a value with a quote comes back cut at its first one, with a backslash in its place |
| FlatFile.NothingSkipped | src/bnetd/file_plain.cpp:83 | the prefix test for character defaults is applied to the escaped key, so it never holds |
| FlatFile.WriteAttrs | src/bnetd/file_plain.cpp:52-105 | the loop writes one line for every attribute that has a value, and skips no other |
| FlatFile.FileKeepsAccount | src/bnetd/file_plain.cpp:52-155 | an account with plain keys is read back as readers saw it exactly if no value has a quote |
| Writers.SafeWrite | src/bnetd/storage_sql.cpp:396-515 | either writer leaves storage showing what readers saw, if values are plain and short enough for it and, on rows, none is null |
| Writers.LoadedAsStored | src/bnetd/storage_sql.cpp:225-312 | rows without backslashes are loaded as they are stored, although loading a table unescapes |
| AttrCache.DirectoryDecides | src/bnetd/storage_file.cpp:228-257 | all account files of one directory share their first four characters with the default file, or none does |
| AttrCache.AttrLayer.MarkedOnRows | src/bnetd/attrgroup.cpp:241-252 | on rows a flush takes only the default group for the default group |
| AttrCache.AttrLayer.MarkedOnFiles | src/bnetd/attrgroup.cpp:241-252 | on flat files it compares four characters of two paths: a group is taken for the default one exactly if the directory begins like the default path |
| AttrCache.FlushWritesNothing | src/bnetd/attrgroup.cpp:241-252 | with both directories under one prefix a forced full flush releases and writes nothing, so a change stays out of storage |
| AttrCache.AttrLayer.FindAttr | src/bnetd/attrgroup.cpp:411-457 | loads on demand, then finds, promotes or fetches; the view of the group never changes, the group is loaded and most recently accessed, and a miss means that storage has no such row |
| AttrCache.AttrLayer.Load | src/bnetd/attrgroup.cpp:307-341 | marks the group loaded and caches rows of storage; no value a reader sees changes, nothing becomes dirty, and the branch for a modified unloaded group is unreachable |
| AttrCache.AttrLayer.SetAttr | src/bnetd/attrgroup.cpp:498-539 | the view becomes the old one with the value put under the canonical key; a loader call leaves the group clean and covers the key |
| AttrCache.AttrLayer.GetAttr | src/bnetd/attrgroup.cpp:460-496 | the value of the own group, else of the default group, judged by the views before the call; no view changes |
| AttrCache.AttrLayer.SetAccessed | src/bnetd/attrgroup.cpp:59-64 | the group moves to the end of the loaded queue, which stays ordered by last access |
| AttrCache.AttrLayer.Accessed | src/bnetd/attrlayer.cpp:197-202 | unlinking and appending restores the order of access |
| AttrCache.AttrLayer.SetDirty | src/bnetd/attrgroup.cpp:71-78 | the first dirty mark stamps the time and appends to the dirty queue, which stays ordered by dirty time; later marks keep the stamp |
| AttrCache.AttrLayer.ClearDirty | src/bnetd/attrgroup.cpp:80-95 | the group leaves the dirty queue, its attributes become clean, and its view stays |
| AttrCache.AttrLayer.SetLoaded | src/bnetd/attrgroup.cpp:97-103 | the group joins the loaded queue and shows what it showed |
| AttrCache.AttrLayer.ClearLoaded | src/bnetd/attrgroup.cpp:105-123 | the group leaves the loaded queue and still shows what storage holds |
| AttrCache.AttrLayer.Save | src/bnetd/attrgroup.cpp:200-222 | writes exactly a dirty group that is forced or dirty for syncTimer; then storage equals the view; no view changes |
| AttrCache.AttrLayer.Flush | src/bnetd/attrgroup.cpp:224-305 | saves and releases exactly a loaded group that is forced or not accessed for flushTimer, and whose record does not share its first word with the default one; no view changes |
| AttrCache.AttrLayer.YoungerBehind | src/bnetd/attrlayer.cpp:143-161 | in the dirty queue a group too young to write has only groups too young behind it |
| AttrCache.AttrLayer.RecentBehind | src/bnetd/attrlayer.cpp:99-117 | in the loaded queue an accessed group behind one too recent to flush is too recent as well |
| AttrCache.AttrLayer.SaveAll | src/bnetd/attrlayer.cpp:128-170 | a pass writes a prefix of the dirty queue, all of it due; what a full pass or an early stop leaves behind is not due; a forced full pass empties the queue; no view changes |
| AttrCache.AttrLayer.AllSaved | src/bnetd/attrlayer.cpp:128-170 | with an empty dirty queue storage equals the view of every group |
| AttrCache.AttrLayer.FlushAll | src/bnetd/attrlayer.cpp:84-126 | every group released is written back and was idle; after a full pass no accessed idle group is left but those taken for the default one; a forced full pass keeps exactly these, unwritten, and writes and releases all others; a pass goes over a prefix of the queue, a stepwise one over at most userStep groups, releases all of it but these, and what a stop before that leaves is too recent; no view changes |
| AttrCache.AttrLayer.FlushForced | src/bnetd/attrlayer.cpp:84-126 | a forced full pass leaves only the default group exactly if no other loaded group is taken for it, and storage equal to all views exactly if those it keeps were written before |
| AttrCache.AttrLayer.CreateGroup | src/bnetd/attrgroup.cpp:144-171 | a stored account starts unloaded and shows its rows; a new user starts loaded and empty; no other view changes |
| AttrCache.AttrLayer.Destroy | src/bnetd/attrgroup.cpp:186-198 | the group is written back and leaves both queues, and all stays in order, exactly if it is not both loaded and taken for the default group; otherwise nothing is written and it stays in the queues |
| AttrCache.AttrLayer.Do | src/bnetd/attrgroup.cpp:200-539 | any one request answers as a plain map would and leaves what readers see, and what is stored of accounts without a group, equal to the plain map after it; it moves the clock and dates the set values as told from the requests; a forced save leaves storage equal to the view, a forced full pass the whole storage equal to the plain map and no dirty group, an unforced one every value set syncTimer ago or earlier stored; a flush releases and writes what it should |
| AttrCache.AttrLayer.Serve | src/bnetd/attrgroup.cpp:200-539 | write-back transparency over every sequence of gets, sets, loads, saves, flushes, passes, waits, new accounts and groups that come and go: all answers are those of a plain map; the effect of the last request is as Do has it, with the dates of all sets told from the requests, and a run that ends in a forced full save leaves storage equal to the plain map after it; if all that is set is safe with the writers, storage is what they make of it throughout |
| AttrCache.LastSetWins | src/bnetd/attrgroup.cpp:498-539 | after any run a key holds what was last set under it while its account was open, ignoring case and rewritten prefixes, else what it held at the start |
| AttrCache.GetAfterRun | src/bnetd/attrgroup.cpp:460-481 | a get after any run: the value last set or stored in the account, else the same for the default account |
| AttrCache.OpenAfterRun | src/bnetd/attrgroup.cpp:144-198 | after any run a stored account is open exactly if the last request to open or close it opened it, or there was none and it was open |
| AttrCache.NewUserAnswers | src/bnetd/attrgroup.cpp:144-171 | a new user is stored without values and open, and a get answers the value of the default account |
| AttrCache.AttrLayer.NotDueSettled | src/bnetd/attrlayer.cpp:128-170 | whatever a group that is not due for a save has yet to write was set less than syncTimer ago |
| AttrCache.AttrLayer.AllStored | src/bnetd/attrlayer.cpp:128-170 | with every group written, storage as a whole is the plain map |
| LevelWalk.NextRank | src/bnetd/anongame.cpp:891-900 | the next offset of the zig-zag is always later in the order 0, 1, -1, 2, -2 and keeps the level at most MAX_LEVEL, so the loop ends |
| LevelWalk.WalkVisits | src/bnetd/anongame.cpp:824-902 | the loop visits exactly the offsets of its reach whose level lies between 0 and MAX_LEVEL |
| LevelWalk.WalkOrder | src/bnetd/anongame.cpp:824-902 | no level is visited twice, and the distance never shrinks |
| LevelWalk.WalkInRange | src/bnetd/anongame.cpp:824-897 | the guard compares with MAX_LEVEL itself: every level visited has a list exactly if level + diff < MAX_LEVEL |
| LevelWalk.WalkCoversWindow | src/bnetd/anongame.cpp:820-902 | an unshrunk window is visited completely |
| QueueSearch.CandidatesAreAllInReach | src/bnetd/anongame.cpp:824-828 | the entries offered are all entries within reach of the searcher, each once; index MAX_LEVEL is the list that lies behind those of the queue |
| QueueSearch.ReadsBehindExactly | src/bnetd/anongame.cpp:824-897 | an entry from behind the lists of the queue is offered exactly if there is one and level + diff reaches MAX_LEVEL |
| QueueSearch.SearchSafe | src/bnetd/anongame.cpp:830-838 | any two matched entries are within the level difference, share the searcher's version tag, the mask stays non-empty and holds exactly the slots that everyone ticked, and the window holds exactly the levels near everyone |
| QueueSearch.SearchTakesOffered | src/bnetd/anongame.cpp:828-888 | matched entries are distinct, come from the lists, and are never more than needed |
| QueueSearch.SearchMaximal | src/bnetd/anongame.cpp:820-906 | a search that fails has overlooked nobody: every entry was matched, or is out of the final window, has another version tag, or shares no map with the final mask |
| QueueSearch.TakenInTurn | src/bnetd/anongame.cpp:828-888 | first come, first served: an entry offered is matched exactly if room is left, it is within the level difference of the searcher and of all matched before, has the version tag, and ticks a slot that all of them ticked |
| QueueSearch.PairExactly | src/bnetd/anongame.cpp:803-906 | a queued player who searches a game of two finds one exactly if some other entry is within reach, of the same version, with a slot in common |
| QueueSearch.WholeSearch | src/bnetd/anongame.cpp:803-906 | all of this together for one search through the lists of a queue |
| QueueRemoval.WithoutAllCounts | src/bnetd/anongame.cpp:880-881 | unqueueing players one after the other removes exactly that multiset of connections |
| QueueRemoval.RestKeepsOrder | src/bnetd/anongame.cpp:880-881 | when nobody is queued twice, exactly the players' entries go and all others keep their order and level |
| QueueRemoval.RemoveAtLevel | src/bnetd/anongame.cpp:1079-1092 | deleting the first entry met when scanning from level 0 is deleting the first entry of that player in the queue as a whole |
| QueueRemoval.FoundAreQueued | src/bnetd/anongame.cpp:828-872 | the matched connections are, counted with repetitions, among the queued ones |
| Matchmaker.Sizes | src/bnetd/anongame.cpp:307-374 | for every kind of queue the players of a full set of entries are the players of the game, at most 12, and divide evenly into 2 to 4 teams |
| Matchmaker.NamedFor | src/bnetd/anongame.cpp:307-374 | the tables of players and teams agree with the team sizes in the names of the kinds, and an arranged entry brings one whole team |
| Matchmaker.SlotsDistinct | src/bnetd/anongame.cpp:848-872 | no two players of an arranged game get the same slot |
| Matchmaker.ArrangedTeams | src/bnetd/anongame.cpp:848-857 | in a full arranged game the player of slot j comes from team j modulo the number of teams, as its member j divided by it |
| Matchmaker.SortedLayers | src/bnetd/anongame.cpp:875-878 | sorting and reordering never put a player into an earlier round than somebody of higher level |
| Matchmaker.Queue.Enqueue | src/bnetd/anongame.cpp:515-542 | a search adds one entry at the end of the list of its level |
| Matchmaker.Queue.Unqueue | src/bnetd/anongame.cpp:1053-1105 | removes the first entry of a connection from level 0 upwards and nothing else; fails exactly for an absent connection in a queue that is not arranged |
| Matchmaker.Queue.Find | src/bnetd/anongame.cpp:816-902 | the nested loops with their shrinking window compute the search over all offered entries, fill the player slots accordingly, and count them |
| Matchmaker.Queue.Arrange | src/bnetd/anongame.cpp:875-878 | after sorting and reordering the same players stand in the game, and earlier rounds are never weaker |
| Matchmaker.Queue.Match | src/bnetd/anongame.cpp:803-906 | a failed match changes no list; a formed one takes exactly its players out, any two matched entries are within the level difference, all share the version tag, and the map slot is one that the searcher and every matched entry ticked |
| Matchmaker.Queue.Request | src/bnetd/anongame.cpp:500-510 | the new player stands at the end of the list of its level with its preferences and version tag; the game forms exactly if the search over these lists takes as many entries as the kind needs; then exactly the players of the entries found leave, the others keep their order, and the game is good for the drawn slot; otherwise nothing else changes; nobody is lost, and nobody appears as long as the search stays within the lists or nobody stands behind them |
| Matchmaker.TwoMeet | src/bnetd/anongame.cpp:500-510 | two players who search one after the other in an empty queue of one against one: the first stays alone, the second gets a game exactly if versions agree, levels are near and a slot is common, and the slot drawn is one that both ticked |
| MapPrefs.BitAnd | src/bnetd/anongame.cpp:838 | a slot survives the intersection of two preference masks exactly if both ticked it |
| MapPrefs.CommonSlot | src/bnetd/anongame.cpp:834 | the intersection of two masks is non-empty exactly if both ticked some common slot |
| MapPrefs.SomeTicked | src/bnetd/anongame.cpp:255-262 | a non-empty mask leaves at least one slot to choose from, so the modulus is not zero |
| MapPrefs.PickSlot | src/bnetd/anongame.cpp:232-268 | the loop draws the slot of the random number among those ticked |
| MapPrefs.DrawnExactly | src/bnetd/anongame.cpp:251-264 | the slots that some random number draws are exactly those the mask ticks |
| MapLists.MapTable.AddMap | src/bnetd/anongame_maplists.cpp:86-190 | names stay distinct, and the queue gets one more slot unless it has 32; slots already filled keep their map; a hundred-and-first name, which the original writes behind its table, is refused |
| MapLists.MapTable.Load | src/bnetd/anongame_maplists.cpp:86-190 | a queue offers the first 32 maps named for it, in order; all lines fit exactly if they name at most 100 maps |
| MapLists.MapTable.GetMap | src/bnetd/anongame_maplists.cpp:341-356 | slot n is the n-th map added to the queue; a slot past the count leads to the first map of the whole table |
| MapLists.MapTable.MapFromPrefs | src/bnetd/anongame.cpp:232-268 | the map of a game is that of the slot drawn, else the first map of the table, else the default map |
| MapLists.MapDrawnExactly | src/bnetd/anongame.cpp:251-264 | the maps that some random number draws are exactly those of the ticked slots below the count of the queue, and the first map of the table if a slot past it is ticked |
| MapLists.DrawsFromQueue | src/bnetd/anongame.cpp:232-268 | every draw yields a map of the queue exactly if all ticked slots are below its count, or the map behind the others is one of the queue |
| MapLists.PastTheCount | src/bnetd/anongame.cpp:255-264 | a mask that ticks a slot past the count can draw a map of another queue |
| TeamOrder.RotatedPermutes | src/bnetd/anongame.cpp:572-797 | a chain of assignments through one temporary permutes the players and touches nothing before its block |
| TeamOrder.RoundPermutesBlock | src/bnetd/anongame.cpp:567-798 | a round permutes its own block whatever the comparisons answer, and moves nobody else |
| TeamOrder.RoundsPermuteBlocks | src/bnetd/anongame.cpp:555-801 | the whole reordering permutes every block within itself |
| TeamOrder.RotatedAt | src/bnetd/anongame.cpp:572-797 | what every place holds after a chain of assignments |
| TeamOrder.SmallDraftsFair | src/bnetd/anongame.cpp:572-622 | with two or three teams a round never gives the team of the larger compared value the stronger player; from the second round on the values compared are not the sums of the teams |
| TeamOrder.SmallDraftsSettled | src/bnetd/anongame.cpp:572-622 | with two or three teams equal values are settled by the number of the team, so that the whole order is determined |
| TeamOrder.FourTeamDrafts | src/bnetd/anongame.cpp:624-797 | with four teams a round is fair by the values compared exactly outside three families of orders, equal values included |
| TeamOrder.FourTeamsSettled | src/bnetd/anongame.cpp:624-797 | with four teams the order is settled by values and numbers for all but three families of values, and for each of these it is the one given |
| TeamOrder.SortedDraft | src/bnetd/anongame.cpp:572-797 | totals that fall from team to team turn the block around |
| TeamOrder.SnakeDraft | src/bnetd/anongame.cpp:555-801 | in a sorted game the second players go to the teams in reverse order |
| TeamOrder.FirstRoundFair | src/bnetd/anongame.cpp:555-801 | in a sorted game the first reordering round never gives a team with more levels so far the stronger player |
| TeamOrder.LaterDraft | src/bnetd/anongame.cpp:567-797 | no level decides any round behind the first: it compares totals of teams that do not exist and the memory behind them |
| TeamOrder.SecondSwap | src/bnetd/anongame.cpp:573-584 | with two teams the second round always swaps |
| TeamOrder.SecondRoundOfTwo | src/bnetd/anongame.cpp:573-584 | so in a sorted game it is fair to the sums so far exactly if the first team is not behind or the two players are equal |
| TeamOrder.UnfairPair | src/bnetd/anongame.cpp:573-584 | a game of three against three in which the team with 17 levels gets a stronger player than the one with 11 |
| TeamOrder.UnfairFour | src/bnetd/anongame.cpp:624-797 | a game of four teams of three, with the memory compared in the second round holding the true sums: the team that leads gets a stronger player than another |
| TeamOrder.OrderQueue | src/bnetd/anongame.cpp:555-801 | the in-place loops compute the rounds one after the other |
| OpponentLevel.SharePeriodic | src/bnetd/anongame.cpp:1276-1284 | going round the table brings the same opponents again, and every step of the team count is a teammate |
| OpponentLevel.CountIs | src/bnetd/anongame.cpp:1285 | the divisor is the number of opponents |
| OpponentLevel.Walked | src/bnetd/anongame.cpp:1272-1284 | the walk with its skips sums the levels of exactly the opponents, each once |
| OpponentLevel.OpponentLevels | src/bnetd/anongame.cpp:1241-1287 | every player of every kind of game is scored against the recorded level; for games of single players and for random teams it is the integer mean over the opponents |
| OpponentLevel.QueuedAlone | src/bnetd/anongame.cpp:1241-1287 | for players who queued alone it lies between the lowest and the highest ladder level of the opponents, whatever the levels of teams and team mates |
| OpponentLevel.TwoTeamsExact | src/bnetd/anongame.cpp:1259-1264 | between two arranged teams it is the mean over the opponents |
| OpponentLevel.ThreeTeamsExactly | src/bnetd/anongame.cpp:1265-1271 | among three arranged teams the second assignment replaces the first: the mean is recorded exactly if the first level is 0, or 1 with an even second level |
| OpponentLevel.ThreeTeamsWrong | src/bnetd/anongame.cpp:1265-1271 | opposing levels 30 and 10 are recorded as 5 instead of 20 |
| RouteBarrier.Game.Done | src/bnetd/anongame.cpp:1790-1839 | the loops over the slots do what one step of the barrier prescribes, messages and state |
| RouteBarrier.Game.OpenRoute | src/bnetd/anongame.cpp:1669-1687 | a route request replaces the route connection and clears the loaded flag |
| RouteBarrier.Game.Close | src/bnetd/connection.cpp:508-543 | a closed connection takes its player out of the game |
| RouteBarrier.AcknowledgedExactly | src/bnetd/anongame.cpp:1790-1817 | an accepted report, and no other, is acknowledged to everyone in the first eight slots |
| RouteBarrier.ReadyExactly | src/bnetd/anongame.cpp:1790-1837 | READY goes to a slot exactly when a report is accepted that leaves everyone in the first eight slots loaded and routed |
| RouteBarrier.ReadyReachesAll | src/bnetd/anongame.cpp:1823-1837 | it reaches everyone still in the game exactly if nobody sits past the eighth slot |
| RouteBarrier.OpenRoutesOnly | src/bnetd/anongame.cpp:1804-1837 | messages go only to players with an open route connection |
| RouteBarrier.SentInOrder | src/bnetd/anongame.cpp:1800-1837 | acknowledgements go out before READY, each kind in the order of the slots and to nobody twice |
| RouteBarrier.ReadyOnce | src/bnetd/anongame.cpp:1790-1837 | in games of at most eight players READY is sent in one step only, if no accepted LOADINGDONE is repeated |
| RouteBarrier.ReadyOnceExactly | src/bnetd/anongame.cpp:1790-1837 | that holds for all games of a size exactly if the size is at most eight |
| RouteBarrier.NinthPlayerReadiesAgain | src/bnetd/anongame.cpp:1790-1837 | everybody opening a route and then reporting in turn: with nine or more players READY is sent twice |
| RouteBarrier.StallsExactly | src/bnetd/anongame.cpp:1819-1822 | the only event after which nobody is awaited and READY was not sent is the last awaited player leaving |
| RouteBarrier.NoStallWithoutLeaving | src/bnetd/anongame.cpp:1790-1837 | as long as nobody leaves, a game that awaits nobody has been given READY |
| RouteBarrier.StalledGame | src/bnetd/anongame.cpp:1790-1837 | a game of two in which one loads and the other leaves: READY never comes |
| RouteBarrier.WaitingEnds | src/bnetd/anongame.cpp:1669-1839 | over a whole game: whoever is no longer waiting for anybody has been given READY, or the last player awaited left |
| RouteBarrier.SeatsAre | src/bnetd/anongame.cpp:1669-1839 | in any game a player who is still there has a route exactly if it opened one, and is loaded exactly if a report of it counted and it has not opened its route again |
| RouteBarrier.ReadyInAnyGame | src/bnetd/anongame.cpp:1669-1839 | in any game, with players leaving at will, an event is given READY exactly if it is a report that counts after which everybody still waited for has reported |
| RouteBarrier.ReadyComesExactly | src/bnetd/anongame.cpp:1669-1839 | a game nobody leaves is given READY exactly if at some moment every player of the first eight slots has reported after all their routes were opened and not opened its own again |
| RouteBarrier.ReadyIfRoutesFirst | src/bnetd/anongame.cpp:1669-1839 | if nothing happens twice either: exactly if every such player reports after all the routes were opened |
| RouteBarrier.EarlyReportIsLost | src/bnetd/anongame.cpp:1790-1795 | a LOADINGDONE before the other player's route is open is dropped, and READY never comes |
| FixedPoint.StartRepresents | lib/fmt/format.h:995-997 | rounding the reciprocal up, the shift and the correction by four together stay below one unit of the last digit, and the product fits 64 bits |
| FixedPoint.TakeFront | lib/fmt/format.h:997-1002 | the integer part is the leading digits, and the fraction stands for the rest to less than one unit |
| FixedPoint.DecimalFormatter.NextTwo | lib/fmt/format.h:999-1002 | every multiplication by 100 brings out exactly the next two digits, without leaving 64 bits |
| FixedPoint.DecimalFormatter.On | lib/fmt/format.h:985-1012 | on<N> writes exactly the N + 1 digits of the number, with leading zeros, and moves the position behind them |
| FixedPoint.DecimalFormatter.LgIsLength | lib/fmt/format.h:963-974 | lg selects the number of decimal digits less one, for every 32-bit number |
| FixedPoint.DecimalFormatter.Format | lib/fmt/format.h:959-1013 | lg with decimal_formatter prints exactly the decimal notation of every 32-bit number |
| Decimal.PairTable | lib/fmt/format-inl.h:238-244 | entry i of the digit table holds the two digits of i |
| DigitCount.EstimateBrackets | lib/fmt/format.h:932-933 | all numbers of the widths that share an estimate have that many digits or one more |
| DigitCount.TrickCounts | lib/fmt/format.h:929-934 | the bit trick counts the decimal digits of every number of its width, 0 included, without leaving the table |
| DigitCount.CountDigits64 | lib/fmt/format.h:926-934 | for 64-bit numbers |
| DigitCount.CountDigits32 | lib/fmt/format.h:1028-1034 | for 32-bit numbers |
| DigitCount.CountByDivision | lib/fmt/format.h:936-951 | the loop that divides by 10000 counts the decimal digits |
| DecimalText.GroupedSize | lib/fmt/format.h:2591-2594 | grouped text takes the digits and a separator for every third digit but the first |
| DecimalText.SeparatorPlaces | lib/fmt/format.h:1059-1065 | a separator stands exactly after every third digit from the right, never in front, and the digits keep their order |
| DecimalText.SeparatorsRemoved | lib/fmt/format.h:1044-1066 | removing the separators gives the digits back |
| DecimalText.FormatDecimal | lib/fmt/format.h:1074-1099 | the backward writer ends exactly where its length says, holds the grouped notation, and leaves the rest of the buffer alone |
| DecimalText.OnNum | lib/fmt/format.h:2591-2597 | the size computed from the digit count is exactly what the grouped text fills |
| DecimalText.LocalArrayFits | lib/fmt/format.h:1101-1109 | grouped text fits the local array of the iterator overload exactly up to 9 digits for 32-bit and 16 for 64-bit numbers |
| DecimalText.PrefixValue | lib/fmt/format.h:1636-1639 | a prefix above a tenth of INT_MAX already makes the whole number too big |
| DecimalText.ParseNonnegativeInt | lib/fmt/format.h:1627-1649 | in wrapping arithmetic: the exact value of the digit run if it fits an int, and the error exactly otherwise |
| DecimalText.RoundTrip | lib/fmt/format.h:1074-1099 | parsing reads back what printing wrote, for every 64-bit number |
| ExtendedProduct.MultiplyRounds | lib/fmt/format-inl.h:315-324 | the four partial products give the 128-bit product over 2^64, rounded half up, with no intermediate wrap |
| ExtendedProduct.NothingWraps | lib/fmt/format-inl.h:320-323 | 64-bit and unbounded arithmetic agree on the partial products |
| AccountIndex.ComputeHash | src/bnetd/account.cpp:81-102 | the loop over the running hash, with its early end on bytes below -1 |
| AccountIndex.HashIgnoresCase | src/bnetd/account.cpp:81-102 | names equal up to ASCII case hash alike |
| AccountIndex.StrToUint | src/common/util.cpp:125-161 | blanks, a plus sign and digits: the value if it fits 32 bits; the two checks catch every overflow |
| AccountIndex.RowHoldsName | src/bnetd/account.cpp:529-541 | looking in the row of the hash misses no account of that name |
| AccountIndex.AccountList.FindByUid | src/bnetd/account.cpp:548-564 | finds the account of a uid exactly if there is one |
| AccountIndex.AccountList.FindAccount | src/bnetd/account.cpp:497-545 | the answer of a linear scan: by uid where the name asks for one, and by name where it does not or there is no such uid; NameAsked, UidAsked and NoUidAsked tell which names ask for what |
| AccountIndex.ParseExactly | src/common/util.cpp:125-161 | a text converts to a number exactly if the number fits 32 bits and the text is blanks, an optional plus and digits of that value |
| AccountIndex.NameAsked | src/bnetd/account.cpp:508-545 | with savebyname a name that does not begin with # is answered exactly by the account of that name, ignoring case |
| AccountIndex.UidAsked | src/bnetd/account.cpp:508-545 | a number behind #, or without savebyname a name that reads as a number, is answered by the account of that uid if there is one, else by the account of that name unless the name begins with a blank or a plus |
| AccountIndex.NoUidAsked | src/bnetd/account.cpp:508-545 | every other name is answered exactly by the account of that name |
| AccountIndex.NumberAsked | src/bnetd/account.cpp:508-545 | #12 is answered by the account of uid 12, else by the account named #12; so is 12 without savebyname |
| AccountIndex.AccountList.AddAccount | src/bnetd/account.cpp:605-690 | an account is added exactly if no indexed one has its uid or name, though uids above maxuserid are not looked up; both tables keep the same accounts |
| AccountIndex.AccountList.CreateAccount | src/bnetd/account.cpp:692-710 | a new account gets the next uid, which is never taken; it is made exactly if the name is available |
| AccountIndex.NewName | src/bnetd/account.cpp:134-142 | when the lookup finds nothing, the name is available exactly if no account has it |
| ChannelLookup.FoundIsRight | src/bnetd/channel.cpp:1475-1505 | a channel found bears the full name, or is a copy of the family that suits country and realm and has room |
| ChannelLookup.NothingOverlooked | src/bnetd/channel.cpp:1475-1543 | a scan without success met no channel of the full name and no copy with room that surely suits |
| ChannelLookup.NamesResolve | src/bnetd/channel.cpp:1492-1493 | when no earlier channel goes by a later one's full name, the nested lookup leads to the channel itself |
| ChannelLookup.SuitsExactly | src/bnetd/channel.cpp:1495-1505 | a copy suits unless country or realm clash, or a copy with a language was met and this one has none though the query names one |
| ChannelLookup.CopiesCounted | src/bnetd/channel.cpp:1495-1543 | a scan without success counts the suitable copies, if none of them has a language |
| ChannelLookup.CopiesOfLanguage | src/bnetd/channel.cpp:1495-1543 | the first suitable copy with a language starts the count again and gives its name if it was named by hand |
| ChannelLookup.NumbersTellCopies | src/bnetd/channel.cpp:1126-1152 | copies of a family differ in name exactly if they differ in number |
| ChannelLookup.CopyIsNamed | src/bnetd/channel.cpp:1549-1569 | a further copy of a family without languages has the number of suitable copies and one more |
| ChannelLookup.CopyOfLanguageIsNamed | src/bnetd/channel.cpp:1549-1569 | with a language the number counts from the first copy that has one, and its own name is the stem if it was given by hand |
| ChannelLookup.CopyTakesAfter | src/bnetd/channel.cpp:1549-1569 | a further copy belongs to the family, is empty, suits whoever asked, and has the settings of the last of the family |
| ChannelLookup.RefusedExactly | src/bnetd/channel.cpp:71-107 | a channel with proper names is refused exactly if it is permanent and its first namesake has other settings or serves the same client |
| ChannelLookup.LookupAnswers | src/bnetd/channel.cpp:1447-1574 | the answer is a full-name match, a suitable copy with room, or one fresh empty copy appended to the list |
| ChannelLookup.AskingAgain | src/bnetd/channel.cpp:1549-1569 | among channels that no earlier one shadows, a family whose copies are full answers two calls with one fresh copy exactly if a lookup by the name due for the copy finds nothing, and the family admits members or that name is the one asked for |
| ChannelLookup.NameCollides | src/bnetd/channel.cpp:1549-1569 | the count starts again with a language: the copy due gets the name of an existing one and is refused, so no channel is found |
| ChannelLookup.NobodyAdmitted | src/bnetd/channel.cpp:1549-1569 | a family whose limit is 0 gets a copy that the next call does not find |
| Channels.ChannelList.Create | src/bnetd/channel.cpp:67-241 | refuses exactly empty names and permanent channels that may not share an existing name; otherwise appends one empty channel |
| Channels.ChannelList.Find | src/bnetd/channel.cpp:1447-1574 | the recursive loop ends, every nested lookup finds a channel and changes nothing, and the outermost one is the specified lookup |
| Channels.ChannelList.AddConnection | src/bnetd/channel.cpp:429-455 | a new member goes in front and the counter follows; a banned one changes nothing |
| Channels.ChannelList.DelConnection | src/bnetd/channel.cpp:502-563 | the first entry of the member goes and the counter follows; a temporary channel goes with its last member; nothing changes for somebody who is no member |
| Channels.ChannelList.Destroy | src/bnetd/channel.cpp:248-270 | a channel with members loses its permanence only; an empty one is unlinked |
| Channels.ChannelList.Enter | src/bnetd/connection.cpp:1911-2015 | somebody enters exactly if the lookup finds a channel and neither ban nor, without privilege, limit is in the way, or if it finds none and the temporary channel is not refused; the channel is the one the lookup names, or the new last one; the newcomer stands first among its members, nobody else moves, and no limit is passed without privilege |
| Channels.ChannelList.JoinThenPart | src/bnetd/channel.cpp:429-563 | joining and then parting through the two methods leaves members and channels as they were, but unlinks a temporary channel that was empty |
| AliasExpansion.OffsetsAre | src/bnetd/alias_command.cpp:236-254 | the offsets are the start and every place where a non-blank follows a blank |
| AliasExpansion.OffsetsIncrease | src/bnetd/alias_command.cpp:236-254 | they are strictly increasing and inside the text |
| AliasExpansion.CountArgs | src/bnetd/alias_command.cpp:221-234 | counts exactly as many words as there are offsets |
| AliasExpansion.GetOffsets | src/bnetd/alias_command.cpp:236-254 | fills exactly that many places |
| AliasExpansion.ReplaceArgs | src/bnetd/alias_command.cpp:94-219 | the growing buffer is never written past its allocation and ends holding the template with every placeholder replaced |
| AliasExpansion.DefinedExactly | src/bnetd/alias_command.cpp:166-178 | an expansion stays inside the offsets exactly if no placeholder of the template starts at a negative word |
| AliasExpansion.NumberReads | src/bnetd/alias_command.cpp:130-132 | a number written in a template is read back with its sign |
| AliasExpansion.RangeForm | src/bnetd/alias_command.cpp:125-182 | ${a-b} stands for words a to b, and leads before the offsets with a minus sign in front of a |
| AliasExpansion.NegativeWord | src/bnetd/alias_command.cpp:174 | the template ${-1-0} leads before the offsets on every command line |
| AliasExpansion.SingleForm | src/bnetd/alias_command.cpp:132-151 | ${n} stands for word n and ${-n} for words 0 to n |
| AliasExpansion.OpenForm | src/bnetd/alias_command.cpp:152-156 | ${n-} stands for words n to the last |
| AliasExpansion.SpanSplits | src/bnetd/alias_command.cpp:174-178 | a span is its two halves with the blank between them |
| AliasExpansion.AllWordsAreTheText | src/bnetd/alias_command.cpp:120-124 | all words from the first are the whole text, as $* is |
| AliasExpansion.WordBeginsItsSpan | src/bnetd/alias_command.cpp:183-200 | $n is the part of ${n} up to the first blank or tab |
| AliasTemplates.DigitStands | src/bnetd/alias_command.cpp:183-200 | text without a dollar, $n for an existing word, and anything: the text, then what is typed from the start of the n-th word to the next blank or tab, then the expansion of the rest |
| AliasTemplates.PlainStays | src/bnetd/alias_command.cpp:113-118 | text without a dollar stays in front of the expansion of what follows it |
| AliasTemplates.PieceStands | src/bnetd/alias_command.cpp:111-214 | whatever follows it, a piece of a template is replaced by what it stands for: $* by the whole text, $n by its word or nothing, ${n}, ${-n}, ${n-} and ${a-b} by the words they name as far as there are any, a stray dollar and its character by nothing; ${-a-b} stops |
| AliasTemplates.TemplateStands | src/bnetd/alias_command.cpp:94-219 | a template written from any pieces is expanded piece by piece |

## Left out

- AttrCache.AttrLayer.SetAttr: attributes are values in a sequence, so that two holders of one attribute object are not distinguished, and the dirty mark of the attribute and of the group are set before the value and not after it, which no caller can see.
- AttrCache.AttrLayer.Load: the loadedtabs bookkeeping of SQL accounts, null rows in storage, and read errors; a row store may be read again and a row is never null.
- AttrCache.AttrLayer.Flush: the branch that keeps connected users in the cache; flushing of connected users is assumed to be configured.
- AttrCache.AttrLayer.SaveAll: a stepwise pass starts at the head of the queue, where the original resumes at a saved cursor.
- AttrCache.AttrLayer.FlushAll: the same, for the loaded queue.
- AttrCache.AttrLayer.Destroy: destroying or reloading the default group.
- AttrView.WriteBackIsOverlay: it is about writers that put down every value and remove the row of a null one (Writers.SafeWrite tells when the writers of the code do); write errors.
- AttrView.CanonicalByCase: the rewriting of keys by the SQL driver, which turns backslashes and quotes into underscores.
- AttrView.WriteSqlExactly: limits of the database's own column types.
- AttrCache.AttrLayer.Serve: groups that a flush takes for the default one are not closed, since the original leaves freed memory in its queues; what unsafe values become in storage is told by the writers' lemmas and not followed through a run.
- AttrCache.DirectoryDecides: of a path of less than four characters the bytes behind its end are taken to be zero.
- FlatFile.LineReads: a printable character is one of the C locale, and text is bytes.
- Matchmaker.Queue.Match: what stands behind the lists of a queue is a parameter; what the library sort does among players of equal level is left open.
- TeamOrder.OrderQueue: level totals read past the four in use, and player slots read past the array, are arbitrary values.
- MapPrefs.PickSlot: the random number is a parameter, and an empty mask, which the original divides by, is excluded.
- MapLists.MapTable.AddMap: what the original overwrites when it writes a hundred-and-first name behind its table.
- Matchmaker.Queue.Request: the packets of the search request, search times, and the wait for all members of an arranged team; tournament queues.
- OpponentLevel.OpponentLevels: the win and loss counts that are recorded next to the levels.
- RouteBarrier.Game.Done: the JOINED handshake, game results and their timers; closing a route connection and closing a game connection are one event.
- ExtendedProduct.MultiplyRounds: overflow of the exponent, which is an int in the original.
- FixedPoint.DecimalFormatter.Format: the variant that appends a null character.
- AccountIndex.AccountList.FindAccount: accounts are not loaded from storage when the lookup fails.
- AccountIndex.AccountList.CreateAccount: the check of the characters of a name, password hashes, and the save that follows.
- Channels.ChannelList.Create: channel ids, logs, flags that a lookup does not read, and channel lists other than the global one.
- Channels.ChannelList.Enter: clan channels, redirection, leaving the former channel or staying in it, and the texts sent; whether the channel found bans the user is a parameter.
- Channels.ChannelList.DelConnection: the original dereferences the first member without a check; the model answers false for a channel without members.
- AliasExpansion.ReplaceArgs: buffer sizes and numbers are unbounded integers; where a negative word would be read the model stops.
- Packet encoding, sockets, timers, Lua, logging, localisation, configuration files, ladders, clans, characters, banners, updates and WOL messages.
