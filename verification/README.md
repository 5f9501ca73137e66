# Four systems programs, modelled and proved in Dafny

The repository holds four C programs in which several threads or processes share something: an array,
a file, a queue, a net of pipes. Each is modelled here as it moves step by step, with every order of the
steps allowed, and its main promise is proved for all inputs and all orders. Where a promise holds only
under a condition, the condition is stated exactly, with an input that fails it. The functions that the loops and
the theorems share, such as the order of titles, the score, a round of a battle, an entry into the scheduler or
a reply to a command, are also described without their own definitions, in numbers and sequences.

**Movie recommendation** (`MovieOrder`, `MovieSort`, `ForkJoin`, `MovieServer`). A request selects and
scores movies; a tree of tasks then sorts the shared arrays by score and title. A leaf runs a selection
sort that also appends a suffix to each title, and the merges above it compare the rewritten titles.
`MovieServer` has the loops of `lib.c` and `server.c` on arrays, each equal to a function on sequences.
In `ForkJoin` every movie copied, written or merged and every round of a selection sort is a step of its
own, and any task may move next; the invariant is `Outcome`, what the range of a task is going to hold, and no step of any task changes it. The
appended suffix begins with a tab, so two titles can change places only if one extends the other by
something not above the suffix: `SuffixOrder` says when. The result is the ranking of the rewritten
movies if and only if no leaf holds such a pair with equal scores. Weights, and so scores, may be negative;
a leaf with two negative scores fails the assertion of its sort. Every run can be continued to a finished
one exactly if no leaf has two, and otherwise to a failure. The answers of the two servers are therefore
values that may be an abort: with titles whose bytes are above the tab, the servers agree if and only if
both abort or neither does, and `OneServerAborts` has two movies on which one of them does. In pserver a
child that aborts is not noticed by its parent; its runs are followed up to the first failure, and its
answer is taken to be definite if no leaf fails, or if the last one does, which the process of the
request sorts itself.

**Booking servers** (`BookingCommand`, `BookingModel`, `BookingSteps`, `BookingServer`). Read and write servers share a
file of twenty records under POSIX record locks, which never conflict inside one process, and keep tables
of their own sessions. `BookingModel` runs any number of servers and connections over one disk;
`BookingServer` is the event loop with its tables, each method equal to a function of the model.
`BookingSteps` takes the events apart: setting a lock, reading the record, storing it and unlocking are
steps of their own, interleaved over the servers, and every run of steps follows a run of whole events. Ints are
32 bits wide, and their sums wrap. A booking command is accepted only in its canonical form; a wrapped sum
can pass the check against more than 15 items, and `LimitKeptExactly` says exactly when the limit holds.

**Thread library** (`SchedulerQueues`, `Threads`, `ThreadLibrary`). A ready and a waiting queue in fixed
arrays, round robin, and removal by moving the last thread into the hole. `ThreadLibrary` has the loops
and the control blocks; `SchedulerQueues` proves bounded waiting over whole runs and `Threads` that each
thread prints the right numbers and exits at its turn, whatever the schedule. The compaction loop clears an entry that is already
in place. `CompactionKeepsExactly` and `WakingKeepsExactly` say for which queues no thread is lost; the
program is safe because one thread only ever reads, which is the invariant `Valid`.

**Championship** (`Battle`, `Bracket`, `Elimination`, `Network`, `Championship`). Fourteen battle and
fifteen player processes pass one status record along pipes and fifos. `Battle` gives a battle in closed
form, `Bracket` reads the tables of both programs as a tree, `Elimination` counts defeats. `Network` is
the system of processes with blocking reads and waits: moves of two processes commute unless both are
about to write to the same fifo, which cannot happen on the way to a state where all is over.
`Championship` builds one run along the bracket, and so decides every run: there is no deadlock, the
number of moves is the same in every complete run, the champion is that of the bracket, and no player
is ever healed beyond the points it started with.

## Model

| member | source | states |
|---|---|---|
| MovieOrder.LessIsStrcmp | simple-movies-recommendation-system/lib.c:78 | a title precedes another one exactly if it is a proper prefix of it or smaller in the first byte in which they differ |
| MovieOrder.LessTotal | simple-movies-recommendation-system/lib.c:78 | this order puts any two different titles one way and not the other |
| MovieOrder.LessTransitive | simple-movies-recommendation-system/lib.c:78 | the order of titles is transitive |
| MovieOrder.BeforeTotal | simple-movies-recommendation-system/lib.c:73-81 | score downwards, then title upwards, is a strict total order on movies |
| MovieOrder.NotBeforeTransitive | simple-movies-recommendation-system/lib.c:73-81 | "not after" is transitive, so that a sequence in which neighbours are in order is sorted |
| MovieOrder.SuffixOrder | simple-movies-recommendation-system/lib.c:34-51 | exactly when two titles with the suffix compare in a given order: when the bare titles do and neither is inverted, or when they are inverted the other way |
| MovieOrder.PlainNotInverted | simple-movies-recommendation-system/lib.c:37-48 | a title without a byte up to the tab is never moved behind a longer one |
| MovieOrder.PlainNoInversion | simple-movies-recommendation-system/lib.c:37-48 | in a data set of such titles the suffix changes no comparison |
| MovieOrder.InversionExample | simple-movies-recommendation-system/lib.c:37-48 | two titles, one extending the other by a tab, that change their order when the suffix is appended |
| MovieOrder.SortedUnique | simple-movies-recommendation-system/lib.c:10-30 | a collection of movies has one sorted listing only |
| MovieOrder.AddSecretsPermutes | simple-movies-recommendation-system/lib.c:22-26 | rearranged movies are rearranged after rewriting |
| MovieSort.MiddleIsLeftHalf | simple-movies-recommendation-system/server.c:171 | the midpoint of the inclusive bounds splits off the larger half |
| MovieSort.RankedIsSorted | simple-movies-recommendation-system/lib.c:10-30 | the reference ranking is a sorted permutation |
| MovieSort.RankedUnique | simple-movies-recommendation-system/lib.c:10-30 | every sorted permutation is the reference ranking |
| MovieSort.RankedInOrder | simple-movies-recommendation-system/lib.c:73-81 | of two movies in the ranking, the earlier one has the higher score, or an equal score and an equal or smaller title, byte by byte |
| MovieSort.LeafPermutes | simple-movies-recommendation-system/lib.c:10-30 | a leaf's output is a permutation of its input with the suffix on each title once |
| MovieSort.LeafSorted | simple-movies-recommendation-system/lib.c:10-30 | a leaf's output is sorted on the rewritten titles exactly when no two of its movies with equal scores are inverted |
| MovieSort.SelectStep | simple-movies-recommendation-system/lib.c:14-24 | taking the first best movie, rewriting it and going on with the rest is the leaf's result |
| MovieSort.FirstBestExists | simple-movies-recommendation-system/lib.c:68-84 | every non-empty range has a movie that argmax may select |
| MovieSort.MergePermutes | simple-movies-recommendation-system/server.c:52-86 | a merge loses and invents no movie |
| MovieSort.MergeSorted | simple-movies-recommendation-system/server.c:52-86 | a merge is sorted exactly when both of its parts are |
| MovieSort.TaskSortPermutes | simple-movies-recommendation-system/server.c:166-194 | whatever the splits, every title gets the suffix exactly once and every movie is kept |
| MovieSort.TaskSortSorted | simple-movies-recommendation-system/server.c:166-194 | a task's result is sorted exactly when no leaf holds an inverted pair of equal scores |
| MovieSort.SortIsRanking | simple-movies-recommendation-system/server.c:157-195 | the sort gives the ranking of the rewritten movies exactly when no leaf holds an inverted pair |
| MovieSort.RankingSurvivesRewriting | simple-movies-recommendation-system/lib.c:22-26 | ranking and rewriting commute when no two movies are inverted |
| MovieSort.AnswerInOrder | simple-movies-recommendation-system/server.c:157-247 | without inverted titles the sorted list is, in full, the given movies each once, by score downwards and original title upwards, every title with the suffix behind it |
| MovieSort.ServersAgree | simple-movies-recommendation-system/server.c:166-245 | without inverted titles, and where the answer of pserver is definite, the two give the same answer exactly when both abort or neither does, for any two depth limits; an answer that is no abort is the rewritten ranking |
| MovieSort.FinerLeavesSortable | simple-movies-recommendation-system/server.c:166-206 | with a depth limit not below that of pserver, tserver aborts only on lists on which a process of pserver does |
| MovieSort.OneServerAborts | simple-movies-recommendation-system/lib.c:82 | two movies with plain titles and negative scores: tserver answers and pserver aborts |
| MovieSort.ShortIsDefinite | simple-movies-recommendation-system/server.c:206 | the answer of pserver is definite on at most 1024 movies, and then it aborts exactly if two scores are negative |
| MovieSort.ServersAgreeExactly | simple-movies-recommendation-system/server.c:166-245 | where no leaf of one server holds an inverted pair, the two agree exactly when both abort, or neither does and no leaf of the other holds one either |
| MovieSort.ServersAgreeOnEqualSplits | simple-movies-recommendation-system/server.c:166-245 | on a list that is one leaf for both, or that has at least 1025 * 2^d movies for the common depth limit d, the two abort or answer alike, whatever the titles, where pserver is definite |
| MovieSort.ServersDiffer | simple-movies-recommendation-system/server.c:166-206 | two movies on which both servers answer, and not alike |
| MovieSort.SortAbortsExactly | simple-movies-recommendation-system/lib.c:14-24 | the assertion of argmax fails in some round of a leaf's sort exactly when two of its movies have negative scores |
| MovieSort.FewNegativeSortable | simple-movies-recommendation-system/lib.c:82 | with at most one negative score no leaf aborts, however the list is split |
| ForkJoin.AloneStep | simple-movies-recommendation-system/server.c:206-227 | a step of a task on its own keeps what its range is going to hold, writes nowhere else and brings it nearer to its end |
| ForkJoin.StepKeepsOutcome | simple-movies-recommendation-system/server.c:166-194 | so does any step of any task in a tree, whatever the others are at |
| ForkJoin.Progress | simple-movies-recommendation-system/server.c:178-193 | an unfinished tree has a step unless a leaf is about to fail the assertion |
| ForkJoin.StepKeepsSortable | simple-movies-recommendation-system/lib.c:14-24 | no step changes whether some leaf is ever going to fail |
| ForkJoin.FailingIsNotSortable | simple-movies-recommendation-system/lib.c:82 | a leaf fails only in a tree that was never going to finish |
| ForkJoin.RunKeepsOutcome | simple-movies-recommendation-system/server.c:157-195 | in every state of every run the array is on its way to the one result, and the steps so far are bounded |
| ForkJoin.ScheduleIndependence | simple-movies-recommendation-system/server.c:157-247 | every run of either server, with every choice to spawn or not, is bounded and can go on until it is done or a leaf fails; it fails only if a leaf of the list has two negative scores, and is done only if none has; then it holds the one result, which is the ranking exactly when no leaf holds an inverted pair |
| ForkJoin.RunEnds | simple-movies-recommendation-system/server.c:157-247 | every run can be continued to a finished one if no leaf of the list has two negative scores, and otherwise to one in which a leaf fails |
| ForkJoin.LastLeafFails | simple-movies-recommendation-system/server.c:235-244 | in pserver, if the last leaf has two negative scores, every run can be continued to the failure of that leaf in the process of the request, whatever the others do |
| ForkJoin.HalvesBalanced | simple-movies-recommendation-system/server.c:171-173 | a half of a range of length n / 2^d rounded down or up is one of n / 2^(d+1) |
| ForkJoin.StepKeepsBalance | simple-movies-recommendation-system/server.c:166-181 | a step keeps every range at depth d at n / 2^d, rounded down or up |
| ForkJoin.WorkersBounded | simple-movies-recommendation-system/server.c:178-192 | a balanced tree has at most 2^(limit - depth) - 1 spawned workers |
| ForkJoin.StepUsesRoom | simple-movies-recommendation-system/server.c:174-192 | what a step spawns is taken from 2^(limit - depth) - 1 for each task not yet started, and a join gives nothing back |
| ForkJoin.RunBalanced | simple-movies-recommendation-system/server.c:157-195 | in every state of every run all ranges are balanced, and a request has created at most 2^limit - 1 workers since it came, joined or not; with the limit of the source, 31 |
| ForkJoin.AtMost31Workers | simple-movies-recommendation-system/server.c:166-192 | with the depth limit 5 a request creates at most 31 workers |
| MovieServer.Filtered.Argmax | simple-movies-recommendation-system/lib.c:68-84 | if some score is not negative, the index of the first movie that no other one of the range precedes |
| MovieServer.Filtered.Swap | simple-movies-recommendation-system/lib.c:86-94 | titles and scores change places together, the rest is kept |
| MovieServer.Filtered.Rewrite | simple-movies-recommendation-system/lib.c:34-51 | one title gets the suffix |
| MovieServer.Filtered.Select | simple-movies-recommendation-system/lib.c:16-22 | one pass: the prefix stays final and rewritten, the rest is not rewritten, and both add up to the leaf's result |
| MovieServer.Filtered.Sort | simple-movies-recommendation-system/lib.c:10-30 | the range holds the ranked, rewritten movies it held before, and nothing else changes |
| MovieServer.Filtered.Merge | simple-movies-recommendation-system/server.c:29-89 | the range holds the merge of its two parts, and nothing else changes |
| MovieServer.Filtered.ThreadMergeSort | simple-movies-recommendation-system/server.c:157-195 | the range holds the result of the thread server's task, and nothing else changes |
| MovieServer.Filtered.ProcessMergeSort | simple-movies-recommendation-system/server.c:197-247 | the same for the process server |
| MovieServer.Filtered.SortCopy | simple-movies-recommendation-system/server.c:206-227 | copying out, sorting and copying back is sorting in place |
| MovieServer.DotOfOneGenre | simple-movies-recommendation-system/server.c:129-131 | where one side has one genre only, the score is the product of the two weights of that genre |
| MovieServer.DotAdds | simple-movies-recommendation-system/server.c:129-131 | the score of a sum of weights is the sum of the scores, on either side; with DotOfOneGenre this determines it |
| MovieServer.ChosenExactly | simple-movies-recommendation-system/server.c:117-152 | a movie is chosen exactly when the keywords are a star or occur in its title, with the sum of the products of the weights as its score |
| MovieServer.MatchesExactly | simple-movies-recommendation-system/server.c:118-139 | a title matches exactly if the keywords are a star or the title is something, then the keywords, then something |
| MovieServer.ChosenInOrder | simple-movies-recommendation-system/server.c:117-152 | the chosen movies come in the order of the data set |
| MovieServer.RequestSortable | simple-movies-recommendation-system/server.c:129-131 | a request without negative weights, on a data set without any, aborts on neither server |
| MovieServer.Filter | simple-movies-recommendation-system/server.c:100-155 | the buffer holds the chosen movies in order, each score added to what the buffer held |
| MovieServer.HandleRequest | simple-movies-recommendation-system/server.c:249-262 | where no leaf aborts, the list written is the answer of tserver to the chosen movies, and their ranking exactly when no leaf holds an inverted pair |
| MovieServer.HandleOnlyRequest | simple-movies-recommendation-system/server.c:299-309 | the same for pserver |
| MovieServer.RequestsAgree | simple-movies-recommendation-system/server.c:249-311 | without negative weights and with plain titles the two servers answer a request alike, with the rewritten ranking |
| BookingCommand.ParseId | csiebooking/server.c:205-221 | an accepted id is that of one of the twenty users |
| BookingCommand.PrintedIdAccepted | csiebooking/server.c:205-221 | the number of each user is accepted as that user |
| BookingCommand.IdExactly | csiebooking/server.c:205-221 | a line is accepted as a user exactly if it is the number of that user behind any number of zeros |
| BookingCommand.PrintNatIsDecimal | csiebooking/server.c:315 | a number is printed in as many decimal places as it takes, and its digit at the place k is that of 10^k |
| BookingCommand.PrintExample | csiebooking/server.c:315 | what 1, -2 and 30 are printed as |
| BookingCommand.ScanPrintedInt | csiebooking/server.c:313-315 | scanning a printed int gives the int back and leaves what follows |
| BookingCommand.ScanPrintedTriple | csiebooking/server.c:313-315 | scanning a printed command gives the command back, whatever the variables held |
| BookingCommand.CommandIsCanonical | csiebooking/server.c:312-316 | a line is a command exactly when it is the print of three ints, and then it is those, whatever the variables held and whatever a number out of range stores |
| BookingCommand.PrintInjective | csiebooking/server.c:315 | two commands that print alike are equal |
| BookingModel.AcceptedIsSum | csiebooking/server.c:328-353 | an accepted command stores the exact sum, although the additions wrap |
| BookingModel.AcceptedExactly | csiebooking/server.c:333-353 | a moderate command is accepted exactly when the result is legal; an accepted one gives a legal booking exactly when it is moderate |
| BookingModel.AcceptedInClosedForm | csiebooking/server.c:325-353 | exactly the commands accepted on a legal booking, in terms of the exact sums: no amount negative or beyond an int, and a total of at most 15 or one that wraps around to that or less |
| BookingModel.WrapModulo | csiebooking/server.c:328-331 | a wrapped int differs from the exact one by a multiple of 2^32 |
| BookingModel.SumOfPlus | csiebooking/server.c:325-331 | the sum that is checked is the exact total up to a multiple of 2^32 |
| BookingModel.VerdictInClosedForm | csiebooking/server.c:325-353 | which of the three answers a command gets on a legal booking, for all commands and in terms of the exact sums |
| BookingModel.ReplyToCommand | csiebooking/server.c:312-373 | the reply a writer reads and the record stored: more than 15 exactly if the exact total exceeds 15 or wraps to that, less than 0 exactly if not and an amount is negative or wraps, and otherwise the exact sums are stored |
| BookingModel.WrappedSumAccepted | csiebooking/server.c:325-334 | a command that is accepted although it books far more than 15 items |
| BookingModel.NoSession | csiebooking/server.c:199-228 | a hang-up ends a connection silently, and a line that is not the number of a user, behind zeros or not, with an error; nothing else changes |
| BookingModel.ReadSessionEnds | csiebooking/server.c:283-300 | a read session ends exactly with "Exit" or a hang-up, with one reader less and without the lock if it was the last; other lines change nothing |
| BookingModel.WriteSessionEnds | csiebooking/server.c:302-375 | a write session ends with whatever comes, unlocked; the reply is the error exactly for a line that is not the print of three ints, and only an accepted command changes a record |
| BookingModel.WritingStops | csiebooking/server.c:305-309 | lock, mark and connection are gone |
| BookingModel.StartReadingAgrees | csiebooking/server.c:232-252 | a read session keeps counter, lock and sessions in agreement |
| BookingModel.StartWritingAgrees | csiebooking/server.c:256-277 | so does a write session |
| BookingModel.StopReadingAgrees | csiebooking/server.c:286-300 | so does the end of a read session, where only the last one drops the lock |
| BookingModel.StopWritingAgrees | csiebooking/server.c:305-310 | so does the end of a write session |
| BookingModel.OthersKept | csiebooking/server.c:104-117 | what one process does to the lock of one user leaves every other process in agreement |
| BookingModel.InvKept | csiebooking/server.c:164-382 | every event on any server keeps tables, locks, sessions and history in agreement |
| BookingModel.BehaviourInv | csiebooking/server.c:164-382 | they agree in every state of every run |
| BookingModel.MutualExclusion | csiebooking/server.c:231-276 | two clients of one user are served together, over all servers, only if both read |
| BookingModel.ShownIsCurrent | csiebooking/server.c:256-271 | what a client has been shown stays the record, as long as the client is served |
| BookingModel.BookingsSerial | csiebooking/server.c:323-373 | each record is its initial value plus the accepted commands in order, and each commit stores what it was shown plus its command |
| BookingModel.RefusedExactly | csiebooking/server.c:232-257 | in every state in which locks, tables and sessions agree, the tests before a session fail exactly if it would clash |
| BookingModel.LockedExactly | csiebooking/server.c:232-277 | a client is refused exactly when it would clash with a client that is served |
| BookingModel.LimitKeptExactly | csiebooking/server.c:333-353 | the limit holds after every commit of a run exactly when no accepted command asks for more than 15 of a kind |
| BookingSteps.OneAccess | csiebooking/server.c:196-310 | an event of at most one access depends on the locks only |
| BookingSteps.ReadsCurrent | csiebooking/server.c:242-271 | a server that holds the lock and has stored nothing reads the booking that the events so far have left |
| BookingSteps.TakeLockFollows | csiebooking/server.c:231-261 | setting the lock is the point at which a session begins for the others |
| BookingSteps.ShowFollows | csiebooking/server.c:241-271 | reading the record afterwards shows what it held then |
| BookingSteps.StoreFollows | csiebooking/server.c:326-370 | storing a booking changes nothing that another server can read |
| BookingSteps.ReleaseFollows | csiebooking/server.c:371-373 | unlocking is the point at which a command counts |
| BookingSteps.StepsSerialize | csiebooking/server.c:164-382 | every run of single steps, in any order over the servers, follows a run of whole events |
| BookingSteps.StepsExclude | csiebooking/server.c:231-276 | between any two steps, two clients of one user are served together only if both read |
| BookingSteps.StepsAreSerial | csiebooking/server.c:323-373 | between any two steps, the history of bookings really read and stored is serial, and each record is what it leaves or what one server has just stored on top |
| BookingSteps.StepsShowCurrent | csiebooking/server.c:256-271 | between any two steps, what a client has been shown is the record, unless its own command has just been stored |
| BookingServer.RecordFile.LockRegion | csiebooking/server.c:104-111 | a lock is refused exactly when another process holds an incompatible one, and then nothing changes |
| BookingServer.RecordFile.Unlock | csiebooking/server.c:113-117 | the lock of the whole process is gone |
| BookingServer.Server.AcceptConnection | csiebooking/server.c:168-186 | a new connection waits for an id |
| BookingServer.Server.EndConnection | csiebooking/server.c:98-102 | the connection is gone, the tables are kept |
| BookingServer.Server.CheckId | csiebooking/server.c:205-221 | the loop over the characters, atoi and the range check are ParseId |
| BookingServer.Server.HandleId | csiebooking/server.c:196-279 | state, file and reply after an id line are those of the model |
| BookingServer.Server.BeginReading | csiebooking/server.c:231-252 | the same for the start of a read session |
| BookingServer.Server.BeginWriting | csiebooking/server.c:254-277 | the same for the start of a write session |
| BookingServer.Server.EndReading | csiebooking/server.c:286-300 | the same for the end of a read session |
| BookingServer.Server.EndWriting | csiebooking/server.c:305-309 | the same for the end of a write session |
| BookingServer.Server.HandleSession | csiebooking/server.c:280-378 | the same for a line or a hang-up during a session |
| BookingServer.Server.Book | csiebooking/server.c:312-375 | the same for a booking command; `ReplyToCommand` says which reply that is |
| BookingServer.Server.AddUp | csiebooking/server.c:328-331 | the loop over the three amounts gives the new booking and the sum, as they wrap |
| BookingServer.Server.NoneBelowZero | csiebooking/server.c:342-352 | the loop tells whether no amount is below zero |
| BookingServer.Server.HandleInput | csiebooking/server.c:193-381 | one turn of the event loop is one step of the model |
| SchedulerQueues.SwapOutElements | thread-library/scheduler.c:60-72 | filling the hole with the last thread removes just the running one |
| SchedulerQueues.ReenterValid | thread-library/scheduler.c:36-115 | an entry keeps every thread queued once, only the reader waiting and the index in range; just the running thread leaves, and only by thread_exit |
| SchedulerQueues.ReturnsWhenAllExited | thread-library/scheduler.c:83-85 | the scheduler returns exactly when the last live thread exits |
| SchedulerQueues.ReaderWakes | thread-library/scheduler.c:40-55 | a waiting reader that can read is put at the end of the ready queue, whatever else is ready; after a yield the next thread runs, after an exit the reader itself |
| SchedulerQueues.YieldTurns | thread-library/scheduler.c:76-77 | a yield with nobody to wake keeps both queues, and the next thread in the circle runs |
| SchedulerQueues.LeavingMovesLast | thread-library/scheduler.c:56-115 | the queues after a read or an exit with nobody to wake, element by element, for a hole before the end, at the end and in a queue of one |
| SchedulerQueues.RunValid | thread-library/scheduler.c:26-119 | in every state of every run the queues are valid, hold the created threads less the exited ones, and never more than were created |
| SchedulerQueues.YieldShortens | thread-library/scheduler.c:76-77 | a yield brings every other ready thread nearer to its turn, also if the reader is woken |
| SchedulerQueues.LeaveShortens | thread-library/scheduler.c:56-82 | so does a thread that leaves, although the last thread moves into its place |
| SchedulerQueues.ExitAndWakeShortens | thread-library/scheduler.c:40-82 | so does an exit whose hole is filled by the reader just woken |
| SchedulerQueues.EntryShortens | thread-library/scheduler.c:36-119 | every entry by another thread lowers the bound on the wait of a ready thread and keeps it ready |
| SchedulerQueues.BoundedWaiting | thread-library/scheduler.c:40-82 | a ready thread runs within fewer entries than five times the live threads |
| SchedulerQueues.ReaderWaitsBounded | thread-library/scheduler.c:36-82 | a waiting reader that can read is ready after the next entry and runs within five entries for each live thread |
| Threads.FibonacciFits | thread-library/threads.c:7-26 | a turn of fibonacci keeps x, y and i in step with what has been printed, or exits with all of it printed |
| Threads.CollatzFits | thread-library/threads.c:34-50 | a turn of collatz goes one step along the orbit and exits exactly at 1 |
| Threads.BestEndingGrows | thread-library/threads.c:66-71 | y stays the best sum of a non-empty segment that ends at the last number |
| Threads.BestSegmentGrows | thread-library/threads.c:72-74 | x stays the best sum of any segment, the empty one included |
| Threads.MaxSubarrayFits | thread-library/threads.c:58-83 | a turn of max_subarray keeps both, across the suspension in the read |
| Threads.FibonacciInNumbers | thread-library/threads.c:7-26 | right output of fibonacci is two ones and then each number the sum of the two before it |
| Threads.CollatzInNumbers | thread-library/threads.c:34-50 | right output of collatz: from the argument on, half of an even number, one more than the triple of an odd one |
| Threads.SumOfSegment | thread-library/threads.c:66-74 | the sum of a segment is the difference of two partial sums |
| Threads.BestSegmentInNumbers | thread-library/threads.c:72-74 | the best segment is the largest difference of two partial sums |
| Threads.TurnKeepsInv | thread-library/threadtools.h:45-96 | a turn of the running thread, with or without an entry into the scheduler, keeps every control block in step with its own history |
| Threads.OutputsDoNotDependOnSchedule | thread-library/threads.c:3-84 | on every schedule each thread prints a beginning of the right numbers, has exited exactly when all are printed, and the scheduler has returned exactly when all have exited |
| Threads.ExitsAtItsTurn | thread-library/threads.c:21-25 | on every schedule fibonacci(arg) has exited exactly if arg is at least 1 and it has had arg turns, and max_subarray(arg) exactly at 2 * arg turns; neither has more, and with argument 0 they never exit |
| Threads.TurnsAddUp | thread-library/threadtools.h:45-96 | the turns of the created threads are all turns there are |
| Threads.ScheduleEnds | thread-library/scheduler.c:83-85 | without collatz threads and with positive arguments every schedule ends: it can go on until the scheduler returns, which is exactly after the turns that the threads need together |
| Threads.InitThreadsIsFresh | thread-library/main.c:53-61 | what init_threads creates is such a start exactly when an argument is not negative; max_subarray is created once |
| Threads.InitThreadsInOrder | thread-library/main.c:53-61 | which argument goes to which function, and in which order the threads are queued |
| ThreadLibrary.Tcb.RunFibonacci | thread-library/threads.c:7-26 | the loop body on the control block is the turn of the model |
| ThreadLibrary.Tcb.RunCollatz | thread-library/threads.c:34-50 | the same for collatz |
| ThreadLibrary.Tcb.RunMaxSubarray | thread-library/threads.c:58-83 | the same for max_subarray, on both sides of the read |
| ThreadLibrary.Tcb.Run | thread-library/threadtools.h:79-96 | running a thread up to its next entry is the turn of the model |
| ThreadLibrary.CompactionKeepsExactly | thread-library/scheduler.c:48-55 | compaction keeps the remaining threads exactly when the queue is empty or its first slot has been cleared |
| ThreadLibrary.WakingKeepsExactly | thread-library/scheduler.c:41-55 | waking up loses no thread exactly when nobody waits or the first waiting thread is readable |
| ThreadLibrary.Scheduler.ThreadSetup | thread-library/threadtools.h:55-71 | the new thread is last in the ready queue |
| ThreadLibrary.Scheduler.MoveReadable | thread-library/scheduler.c:41-47 | the readable threads are appended in order and their slots cleared |
| ThreadLibrary.Scheduler.Compact | thread-library/scheduler.c:48-55 | the loop leaves Compacted of the queue, self-copies included |
| ThreadLibrary.Scheduler.Poll | thread-library/scheduler.c:36-55 | with at most one thread waiting, a poll moves it to the end of the ready queue if it is readable, whatever else is ready, and otherwise changes nothing |
| ThreadLibrary.Scheduler.FillHole | thread-library/scheduler.c:60-62 | the last thread takes the place of the running one |
| ThreadLibrary.Scheduler.Leave | thread-library/scheduler.c:56-75 | async_read and thread_exit on the arrays |
| ThreadLibrary.Scheduler.AwaitReader | thread-library/scheduler.c:83-115 | with no thread ready, the scheduler returns or goes on with the reader |
| ThreadLibrary.Scheduler.Enter | thread-library/scheduler.c:26-119 | an entry on the arrays is the entry of the model, stays within THREAD_MAX slots, and finds a thread to run unless it returns; a waiting reader is ready afterwards if it is readable or nobody else could run, and otherwise still waits |
| ThreadLibrary.ReaderWokenExactly | thread-library/scheduler.c:36-115 | an entry makes a waiting reader ready if its fifo is readable, or if no thread is left that could run; otherwise it goes on waiting |
| ThreadLibrary.Scheduler.TakeTurn | thread-library/threadtools.h:45-96 | the thread that goes on is the one that was suspended, from its own control block; no other block changes, and the queues change as the model says |
| ThreadLibrary.Scheduler.SystemTurn | thread-library/threadtools.h:45-96 | a turn on the arrays and blocks is a turn of the system of threads |
| ThreadLibrary.Scheduler.RunTurns | thread-library/scheduler.c:26-119 | turns taken on the arrays until the scheduler returns form a schedule; each thread has printed the right numbers up to there, and all of them exactly if it has exited; without collatz threads, choices for the turns that the threads need together are enough |
| ThreadLibrary.LinesAreRight | thread-library/threads.c:3-84 | what a thread has printed in a schedule is the beginning of its sequence, and all of it exactly if it has exited |
| Battle.Fight | pvp-championship/battle.c:133-154 | at the end both marks are set and the last attacker is the one with points left |
| Battle.FightKeepsPlayers | pvp-championship/battle.c:59-74 | a battle changes nothing but points, which fall, and the two marks |
| Battle.FightIsClosed | pvp-championship/battle.c:133-154 | rounds, winner and all points of a battle in closed form |
| Battle.RoundInNumbers | pvp-championship/battle.c:134-141 | a round for given strengths: who attacks first, by points and then by id, who is hit, and when it is over; the attack counts twice if the attribute is that of the battle |
| Battle.FightInNumbers | pvp-championship/battle.c:133-154 | rounds, winner and points of a battle without the rounds: with k0 and k1 attacks needed to beat either player the smaller one is the number of rounds, and at k0 = k1 the player with fewer points at the start of the last round wins, at equal points the one with the smaller id |
| Battle.PlayAnAttack | pvp-championship/battle.c:59-74 | an attack on the records takes the attack, doubled if the attribute is that of the battle, from the points, and sets both marks if none are left |
| Battle.PlayOnce | pvp-championship/battle.c:134-141 | one pass of the loop on the records, with first_attack at the last attacker |
| Battle.PlayingLoop | pvp-championship/battle.c:133-154 | the loop on the records ends with the closed form, after min(k0, k1) rounds |
| Bracket.ParentOfChild | pvp-championship/battle.c:14-22 | the children of a battle name it as their parent, and differ |
| Bracket.ZonesAreDrawn | pvp-championship/player.c:13-14 | the tables draw a tree: real players in zone A, agents in zone B, each process once |
| Bracket.LosersMeet | pvp-championship/player.c:13 | which agents meet in zone B: the losers of G and I, those of H and J, and where those of D, E and B come in |
| Bracket.Heal | pvp-championship/player.c:158-159 | healing gives back half of the missing points, rounded down |
| Bracket.Winner | pvp-championship/player.c:154-163 | the winner of a battle is one of the two, the same player, with points between 1 and those it started with |
| Bracket.Enter | pvp-championship/player.c:143-163 | through any number of battles a player's points lie between 1 and those it started with |
| Bracket.HandedParts | pvp-championship/player.c:164-175 | no hand-over is lost or overwritten: each battle's loser is at the agent of that battle |
| Elimination.HandedFresh | pvp-championship/player.c:168-173 | a player that is handed over has the points, the attack and the attribute it started with |
| Elimination.HandedExactly | pvp-championship/player.c:13 | exactly the agents of the tree's battles get a player |
| Elimination.ZoneBStarts | pvp-championship/player.c:100-110 | the seven losers of zone A reach the seven agents with their points, attack and attribute; nobody beaten in zone B gets an agent |
| Elimination.EachStartLoses | pvp-championship/battle.c:129-187 | in a zone everybody loses once for each start but its winner |
| Elimination.DoubleElimination | pvp-championship/player.c:164-175 | the champion has 0 or 1 defeats, a player first beaten in battle A has 1, all others 2 |
| Network.AnswerIn | pvp-championship/player.c:144-175 | what a player does with a received record, on the record |
| Network.ReaderIs | pvp-championship/battle.c:103-128 | each pipe and fifo has one reader |
| Network.WriterIs | pvp-championship/battle.c:103-128 | each pipe has one writer, and fifos are written by losers only |
| Network.Diamond | pvp-championship/battle.c:129-187 | two processes that can move can move in either order, with the same result |
| Network.CrowdedStays | pvp-championship/player.c:171-174 | two statuses for one agent would never be put right |
| Network.NeverCrowded | pvp-championship/player.c:171-174 | so they do not occur on the way to a state where all is over |
| Network.Overtake | pvp-championship/battle.c:129-187 | a process that can move may move first, and the run gets no longer |
| Network.EveryRun | pvp-championship/battle.c:129-187 | if one run ends with all over, every run goes on to the same end in the same number of moves; and if all points are in bounds along the one, they are along the other |
| Network.SoundStep | pvp-championship/player.c:143-175 | if a move leaves the points of its process in bounds, it leaves those of all processes and messages in bounds |
| Network.TokensStay | pvp-championship/battle.c:129-187 | no move adds to the messages and turns of an edge |
| Network.OneInFlight | pvp-championship/battle.c:129-187 | in every reachable state the two pipes of an edge hold at most one message together |
| Championship.Respond | pvp-championship/battle.c:164-187 | a subtree answers every status but the last, through all its relays, and waits again |
| Championship.Retire | pvp-championship/battle.c:181-185 | on the last status of its player a subtree exits, and a real loser outside of battle A is handed over |
| Championship.FightIn | pvp-championship/battle.c:129-154 | the rounds of a battle over the pipes are those of the battle |
| Championship.Compete | pvp-championship/battle.c:129-174 | a battle below A ends with its winner at the parent and its loser handed over |
| Championship.Finale | pvp-championship/battle.c:155-198 | battle A ends with both subtrees exited and the champion announced |
| Championship.PlayTree | pvp-championship/player.c:100-163 | a zone can be played to its winner, filling or emptying the fifos of its agents |
| Championship.Determined | pvp-championship/battle.c:129-198 | there is one end that all runs lead to, in one number of moves, and it is the one the bracket decides |
| Championship.PointsInBounds | pvp-championship/player.c:143-175 | in every reachable state every status has at most the points its player started with; a player on its way to a battle has at least one and remembers its original points, and one on its way to an agent has all of them |
| Championship.HandOverMeetsAgent | pvp-championship/player.c:170-174 | in every reachable state a loser about to write to a fifo finds its agent still to open it, the fifo empty and no other writer |
| Championship.EveryChampionship | pvp-championship/battle.c:129-198 | in every order of the moves, no process can move exactly when all is over as the bracket decides |
| Championship.SameEnd | pvp-championship/battle.c:129-198 | two complete runs have the same number of moves and the same final state |
| Championship.Terminates | pvp-championship/battle.c:129-198 | the number of moves is bounded by the players alone |

## Left out

- Sockets, select, accept, buffers, prompts, log files, file names and file output; a connection is a
  sequence of whole lines or a hang-up. That an agent closes a log file it has not opened
  (pvp-championship/player.c:176) is outside of the model with the log files.
- Memory management and fixed sizes: titles are sequences of any length, MAX_LEN and the size of the
  buffer for a printed command do not occur.
- Rounding of floating-point scores: they are real numbers, given with the data set; normalisation and
  parsing of the profiles are not modelled.
- MovieSort.ServersAgreeExactly: says nothing of a list on which the leaves of both servers hold an
  inverted pair; then neither answer is in order. `ServersAgreeOnEqualSplits` covers those of them that
  both servers split alike.
- MovieSort.ProcessAnswer: is not defined where a child of pserver aborts and the process of the request
  does not. The parent does not look at the exit status (server.c:243) and merges a range that has not been
  sorted, while children of the dead process may still write; what is printed then is not described.
- MovieServer.HandleRequest: requires a request that some movie matches; with none the source starts the
  sort with the bounds 0 and -1, which its sort does not handle.
- MovieServer.Filtered.Argmax: requires a score that is not negative, without which the source's
  assertion ends the program. The buffer of scores is taken to start at zero, which malloc does not
  promise; `Filter` states what is added to other contents.
- The limit num_of_threads: its test and its increment are separate, so that it bounds nothing reliably;
  every choice to spawn or to call in line is covered. One round of a selection sort, and the sort of a
  process leaf's private copy, are single steps.
- Server crashes, failing system calls and read errors other than a hang-up.
- Signed overflow in the booking servers is taken to wrap as on two's-complement machines; C leaves it
  open. The number of a user id is the mathematical value of its digits, where atoi leaves larger ones
  open; what sscanf stores for a number out of range is arbitrary.
- The lock table follows the fcntl() section of IEEE Std 1003.1; each user has a region of its own. The
  functions setreadlock and setwritelock are never called and are left out.
- Signals, jump buffers and masks: at each yield it is a free choice whether the scheduler is entered.
  Sizes of fifos and of reads are not modelled: an async_read returns a number.
- ThreadLibrary.Scheduler.AwaitReader: the loop that polls until the waiting thread is readable is taken
  to succeed.
- Overflow in the thread functions, and whether collatz ends for every argument; `ScheduleEnds` is about
  schedules without it.
- Opening of fifos is not a step of its own; `HandOverMeetsAgent` shows that both ends are there. Pipes
  hold every message that the processes write; `OneInFlight` says that one is enough.
- Forking: all processes exist from the start, and their first call may come at any time.
- Entries of the fifo table for battles K to N, which do not exist in the source; only agents lose there.
- Points and attacks of the championship are mathematical integers; overflow of the C ints for very large
  ones (battle.c:63-66, player.c:159) is left out.
- The mark battle_ended_flag is a truth value. A player that starts with the mark set, or without points
  or attack, is excluded by `Able`, as by the format of player_status.txt.
- Network.AnswerIn: ends where the player blocks or exits; the loops around it, and the passing loop of a
  battle, are the local states of the network, without records updated in place.
