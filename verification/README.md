# A verified model of the BattleTech MUX server core

This Dafny project models the stateful core of the game server and proves what
its parts keep, over whole runs where they have runs. Each part is written
twice where the source works in place: once on values, as functions, and once
as the source does it, with linked nodes, arrays and loops, each method proved
to do to the structure what the function does to the value.

- **Command scheduler** (`CommandQueueSpec`, `CommandQueueInvariant`,
  `CommandQueueFairness`, `CommandQueueConservation`, `CommandQueueLaws` on values;
  `CommandQueue`, `Scheduler` on linked lists). Run lists on a round-robin ring, a
  wait queue sorted by time, a semaphore queue with counters in attributes.
- **Locks** (`BoolExp`, `LockText`, `LockParser`, `LockReparse`, `LockCut`,
  `LockUnderstood`, `LockFile`, `LockFileIO`, `LockEval`, `LockTables`). The parser,
  the printer with its buffer, what the parser makes of the printer's text for every
  player, the reader and writer of the database file, and evaluation with its bound
  on indirection.
- **Attributes** (`AttributeStore`, `AttributeText`, `AttributeFile`,
  `StringIO`, `Text`, `Parents`). The sorted array and its flag bits, the
  encoding of owner and flags, the file format, inheritance along parents.
- **Splitting command lines** (`SplitText`, `SplitPlaces`, `SplitTrees`, `PieceText`,
  `PieceTrees`, `ParseTo`) and **sorting with any comparator** (`SaneSort`).
- **Timed events** (`EventSpec`, `EventLaws`, `EventLists`, `Events`).
- **The serialiser** of the binary database (`Mmdb`).
- **Macros and channels** (`Macros`, `Commac`, `BubbleSort`, `Channel`,
  `ChannelHistory`). `Memory` and `Options` are shared.

What the server asks of code outside the model is a parameter: which objects
exist and who owns them, what an executed command or an event's function does
to the queues (any finite script, a different one each time), what the tests at
the leaves of a lock answer, which attribute numbers and names are known, what
the comparator of the sort answers (anything, a different answer each time).
Files are the characters that are left to read or were written. Numbers are
unbounded unless a row says otherwise.

Where the code does not keep what one would expect, the exact condition is
proved, and a lemma gives an input at which it fails:

- A stored lock opens to everybody when one part of it is not understood
  (`LockUnderstood.TypedLockIsUnderstood`, `LockEval.StoredLockMeans`). That part
  may be the number of an attribute without a name, tested by anybody but #1
  (`LockEval.NamelessOpens`), or an object that is gone (`LockEval.GoneOpens`). An
  attribute is nameless, too, while its number is the size of the table of numbers
  (btmux/src/db.c:902).
- A stored lock is another one than was typed when its text does not go into the
  printer's buffer (`LockUnderstood.TypedLockIsUnderstood`,
  `LockCut.CutLockIsAnother`, `LockEval.CutLockMeans`). A chain of 3277 times "#5"
  opens to everybody (`LockEval.LongLockOpens`).
- The server cannot read its database file again when a lock in it is on an
  attribute whose name begins with a star. Four predefined ones do, and anybody may
  lock on them: no permission is asked (btmux/src/boolexp.c:265,
  `LockFile.StarredLockAborts`, `LockEval.ReloadMeans`, `LockEval.PasswordStops`).
- A lock of #1 on the number of an attribute whose name holds a slash is stored, and
  written to the file, as a lock on the attribute that the part before the slash
  names (`LockFile.LockRoundTrip`, `LockEval.SlashNameMisread`).
- A restart changes what a lock decides when its text has the number of an
  attribute that got a name meanwhile (`LockEval.ReloadMeans`,
  `LockEval.NumberComesBackNamed`).
- A lock with a newline in it, as evaluation of the argument of @lock can put
  there, is read back from the file as another one (`LockFile.LockRoundTrip`,
  `LockFile.NewlineCuts`).
- A refused wait leaves its counter raised
  (`CommandQueueInvariant.SemWaitAccounting`,
  `CommandQueueInvariant.RefusedWaitIsCounted`).
- A long text with flags of its own loses its end, and a text that looks encoded
  is taken apart (`AttributeText.AttributeRoundTrip`, `AttributeText.LongTextIsCut`,
  `AttributeText.LooksEncoded`). Players cannot type the character that marks
  encoded text (btmux/src/bsd.c:683), and no flag is negative
  (btmux/src/attrs.h:11-25).
- Beside the alias "abcde" a player can add "abcdef", which is stored as the same
  (`Commac.CutClashes`, `Commac.SixthLetterClashes`).

Three conditions are such that no caller violates them. What follows a lock in the
file is a number, so that no newline behind it is swallowed (btmux/src/db_rw.c:788).
Only destroy_obj drains without naming an attribute, and it frees the counters
afterwards, so that they are right again (`CommandQueueInvariant.NotifyAnyAccounting`,
`CommandQueueInvariant.DestroyKeeps`). A macro set is deleted by a number that is
not negative (`Macros.ShiftKeeps`; btmux/src/macro.c:856, btmux/src/db_xdr.c:472).

`dafny verify dfyconfig.toml` checks the whole project.

## Model

| member | source | states |
|---|---|---|
| CommandQueueInvariant.RunsKeepInvariant | btmux/src/cque.c:98-1029 | Over every run of queueing, waking, notifying, draining, expiring, halting, warping, serving, and creating and destroying objects: each object is on the ring at most once, objects with pending commands are on it, run lists hold only commands of their own object, the wait queue is sorted by time; and, when waits are admitted and notifications name their attribute, the number of commands waiting on (object, attribute) is max(0, counter) in every state reached |
| CommandQueueInvariant.DestroyKeeps | btmux/src/object.c:391-450 | Destroying an object leaves no command of it and none that waits on it, keeps the shape of the queues, and keeps the counters of all objects right although the drain names no attribute, because the attributes of the object are freed |
| CommandQueueInvariant.NextKeeps | btmux/src/cque.c:98-1029 | One event of the server keeps the shape of the queues, and the accounting when it is sound |
| CommandQueueInvariant.PerformKeeps | btmux/src/cque.c:356-855 | Each operation a command may carry out, destroying objects at once included, keeps the shape of the queues and, when sound, the accounting |
| CommandQueueInvariant.ServeKeeps | btmux/src/cque.c:941-1023 | A whole round of serving keeps them, whatever the served commands do to the queues |
| CommandQueueInvariant.NotifyKeepsAccounting | btmux/src/cque.c:497-563 | Notify first, notify all and drain with a named attribute leave every counter equal to the commands still waiting, or none when it is negative |
| CommandQueueInvariant.NotifyAnyAccounting | btmux/src/cque.c:497-563 | With no attribute named, notify all and drain keep the counters right just when nothing waits on the object |
| CommandQueueInvariant.SemWaitAccounting | btmux/src/cque.c:844-855 | A wait on a semaphore keeps the counters right just when it is admitted or the counter was negative; the counter is raised before the tests may refuse, or halt all of the owner's commands |
| CommandQueueInvariant.RefusedWaitIsCounted | btmux/src/cque.c:844-855 | From empty queues, one refused wait leaves a counter of one with nobody waiting |
| CommandQueueInvariant.ReleaseCounts | btmux/src/cque.c:319-335 | Taking entries off the semaphore queue lowers each counter by the number of its waiters among them |
| CommandQueueInvariant.TakenWaiters | btmux/src/cque.c:512-551 | A notification of n takes exactly min(n, waiters) entries of its own semaphore and none of another |
| CommandQueueInvariant.TimedInsertion | btmux/src/cque.c:131-146 | Insertion keeps the wait queue sorted, and entries due at the same second keep the order in which they came |
| CommandQueueFairness.ServedInTurn | btmux/src/cque.c:941-1023 | An object at place p of the ring with a pending command is served after at most p other commands, at most one for each object ahead of it, whatever the commands do short of emptying its list: by a halt, by destroying it, or by one command too many of an object it owns |
| CommandQueueFairness.ServedInOrder | btmux/src/cque.c:941-1023 | The commands of one object are served in the order of its run list; what is not served yet is still pending, in order |
| CommandQueueFairness.ServesAll | btmux/src/cque.c:944-1023 | The loop never serves more than it was asked to, and stops short only when the ring is empty |
| CommandQueueConservation.PerformConserves | btmux/src/cque.c:356-855 | Every operation conserves each command: what is queued afterwards plus what was halted, by request, with its object or because its owner had too many, or drained is what was queued before plus what was asked for |
| CommandQueueConservation.HaltSurvivors | btmux/src/cque.c:356-434 | Exactly which commands survive a halt: the run lists of the player named and of the object named are emptied, whoever owns what, and of the commands that wait exactly those go whose owner and whose object both match, the others staying in order |
| CommandQueueConservation.OwnedRunOn | btmux/src/cque.c:372-427 | Halting a player leaves the run lists of the objects he owns as they are, and no waiting command of any of them |
| CommandQueueConservation.OwnerStopsWithObject | btmux/src/cque.c:455-483 | Halting one object together with its owner, as an object does that halts itself, empties the owner's own run list and leaves his own waiting commands |
| CommandQueueConservation.ServeConserves | btmux/src/cque.c:941-1023 | Serving conserves: each command served or still queued was queued before or asked for by a served command, as many times |
| CommandQueueConservation.SecondConserves | btmux/src/cque.c:864-917 | Expiry moves commands and loses none |
| CommandQueueConservation.WakeConserves | btmux/src/cque.c:165-183 | A timer moves its command and loses none |
| CommandQueueLaws.NotifyExactly | btmux/src/cque.c:497-563 | Exactly what a notification does: it takes the longest waiting commands of the semaphore, as many as it is for, unless the counter says that none wait; they are last in their run lists, in their order, or gone; the counter is lower by the number of notifications, below zero if need be, or nothing; and no other counter changes |
| CommandQueueLaws.WaitsInTurn | btmux/src/cque.c:844-855 | Admitted waits on one semaphore, any number of them: as many as it was notified too often run at once, in their order, the others are blocked behind those that were, and each raises the counter by one |
| CommandQueueLaws.NotifiedAhead | btmux/src/cque.c:497-563 | After n notifications ahead of the waits on an idle semaphore, the next n admitted waits run at once and those after them are blocked |
| CommandQueueLaws.TimedWaitDue | btmux/src/cque.c:748-771 | An admitted wait of howlong seconds leaves every run list as it was and puts one command into the wait queue, due at exactly now plus howlong, behind what is due no later; with no time to wait it is at once the last of its run list |
| CommandQueueLaws.SemWaitDue | btmux/src/cque.c:844-855 | An admitted wait on a semaphore that was notified too often runs at once, whatever its timeout; any other is last in the queue and due at now plus its timeout, or never |
| CommandQueueLaws.RefusedRaises | btmux/src/cque.c:844-855 | A refused wait on a semaphore raises its counter and does no more |
| CommandQueueLaws.SecondExactly | btmux/src/cque.c:864-917 | A command is blocked after an expiry just when it was before and has no deadline or one that is still to come, as often and in the same order; the others are last in their run lists, in their order, and the counters are lower by one for each |
| CommandQueueLaws.WarpExactly | btmux/src/cque.c:1204-1224 | A command stays blocked through a warp just when it has no deadline or one that is further off than the seconds warped, which is nearer by so much then; the others run, whether the queue is on or not |
| CommandQueueLaws.UntimedStays | btmux/src/cque.c:98-1029 | Over every run: a command that is blocked without a deadline stays so until a notification or drain of its semaphore, a halt, or the end of its object or of the one it waits on; no clock releases it |
| CommandQueueLaws.WakeExactly | btmux/src/cque.c:165-183 | The timer of a waiting command puts exactly it last in the run list of its object |
| CommandQueueLaws.HaltCounts | btmux/src/cque.c:405-434 | A halt lowers each counter by the number of its waiters that are gone, and nobody loses his place on the ring |
| CommandQueueLaws.DestroyExactly | btmux/src/object.c:391-450 | The end of an object takes exactly its commands and those that wait on it; all others stay in their places, the counters of other objects are lower by its commands that waited there, and it belongs to #1 |
| CommandQueueLaws.NumbersTold | btmux/src/cque.c:356-563 | The number that a halt returns is that of the commands it took off run lists and queues, and the number that a notification returns is that of the commands it took off the semaphore queue |
| CommandQueue.ReadyQueue.CqueFind | btmux/src/cque.c:43-66 | On the linked lists: finding an object creates its empty run list, and nothing else changes |
| CommandQueue.ReadyQueue.Append | btmux/src/cque.c:98-129 | On the linked lists: a command joins the end of its run list and its object joins the ring unless it is on it |
| CommandQueue.ReadyQueue.CqueDeque | btmux/src/cque.c:75-96 | On the linked lists: the first command of the object is taken, or none when it has none |
| CommandQueue.ReadyQueue.TakeTurn | btmux/src/cque.c:944-963 | On the linked lists: the object at the head of the ring goes to the tail or leaves it, and hands out its first command |
| CommandQueue.WaitQueue.Insert | btmux/src/cque.c:131-146 | The trailing-pointer loop puts the command where the sorted insertion on values puts it |
| CommandQueue.WaitQueue.Unlink | btmux/src/cque.c:388-403 | An entry is taken out of the linked wait queue behind its trailing pointer |
| CommandQueue.SemQueue.Append | btmux/src/cque.c:147-160 | On the linked queue with its tail pointer: the command is the last |
| CommandQueue.SemQueue.Unlink | btmux/src/cque.c:405-424 | An entry is taken out of the linked queue and the tail pointer is still the last entry |
| Scheduler.Scheduler.CqueEnqueue | btmux/src/cque.c:98-163 | The linked structures change exactly as the state machine says, for each of the three queues |
| Scheduler.Scheduler.WakeupWaitQue | btmux/src/cque.c:165-183 | The timer of any waiting entry moves that entry to its run list |
| Scheduler.Scheduler.AddTo | btmux/src/cque.c:319-335 | The counter is changed and a zero is stored by clearing; the new value is returned |
| Scheduler.Scheduler.HaltQue | btmux/src/cque.c:356-434 | The linked structures change exactly as the state machine says, and the number of halted commands is returned |
| Scheduler.Scheduler.NfyQue | btmux/src/cque.c:497-563 | The scan with limit and its three kinds changes the linked structures exactly as the state machine says (what that is: CommandQueueLaws.NotifyExactly), and the number of commands taken is returned |
| Scheduler.Scheduler.WaitQue | btmux/src/cque.c:748-771 | A new command that passes the tests gets its deadline, now plus howlong, and goes to the queue the state machine names (CommandQueueLaws.TimedWaitDue and SemWaitDue); one that is refused changes nothing; one too many halts the owner's own run list and the waiting commands of all he owns |
| Scheduler.Scheduler.DoSemWait | btmux/src/cque.c:844-855 | The counter is raised first; the command, if it passes the tests, runs at once when the counter is not positive then, and waits otherwise |
| Scheduler.Scheduler.DestroyObj | btmux/src/object.c:391-450 | On the linked structures: the halt, the drain and the freed counters leave nothing of the object in the queues, exactly as the state machine says |
| Scheduler.Scheduler.DoSecond | btmux/src/cque.c:864-917 | Entries whose deadline has passed, and no others (CommandQueueLaws.SecondExactly), leave the semaphore queue, in order, each lowering its counter |
| Scheduler.Scheduler.DoTop | btmux/src/cque.c:924-1029 | Up to ncmds commands are served in rounds exactly as the state machine serves them; ends although halts leave empty objects on the ring |
| Scheduler.Scheduler.DoWarp | btmux/src/cque.c:1204-1224 | Deadlines of blocked commands move forward and those that pass expire, with the queue switched on meanwhile |
| LockFile.LockRoundTrip | btmux/src/db_rw.c:34-274 | For every lock whatever, reading what was written gives the same lock just when it is the null lock, or no part of it is, no string in it holds a newline or an operator, no number is negative, and the name of every attribute begins with a letter, holds no slash, colon or newline and is looked up as that attribute; the rest of the file is then left alone just when it does not start with a newline, or the lock is of the kind that is written with a newline of its own |
| LockFile.NewlineCuts | btmux/src/db_rw.c:186-245 | A lock with a newline in its string is read back cut at the newline, and the reader is left in the middle of what was written |
| LockFile.QuotedBack | btmux/src/db_rw.c:129-165 | An attribute lock with quoted name and text, a form the writer does not use: both strings are read whole, newlines and operators included |
| LockFile.DashIsTrue | btmux/src/db_rw.c:118-128 | A line that begins with a minus sign is read as the true lock |
| LockFile.StarredLockAborts | btmux/src/db_rw.c:34-274 | A lock the parser builds, fit for the file but for names of attributes that begin with a star, is not read back at all just when it has such a name, wherever in it: the reader aborts |
| LockFileIO.WriteBoolExp | btmux/src/db_rw.c:421-427 | The writer appends exactly the written form to the file |
| LockFileIO.WriteSub | btmux/src/db_rw.c:342-416 | The same for a part of a lock, case by case |
| LockFileIO.ReadBoolExp | btmux/src/db_rw.c:252-274 | The character-by-character reader finds and leaves what the function on values says, including its two failures |
| LockFileIO.ReadSub | btmux/src/db_rw.c:34-245 | The same for a part of a lock |
| LockText.ParserBuilds | btmux/src/boolexp.c:238-561 | On any text whatever the parser returns the true lock or one in which @ and $ stand before an object, = and + before an object or attribute, numbers are what atoi leaves of them in 32 bits, and no string holds an operator or a closing parenthesis or ends with a space |
| LockText.ParsedFromText | btmux/src/boolexp.c:299-550 | The strings of a parsed lock hold only characters of its text, and every object in a stored lock exists |
| LockText.ParsedPositive | btmux/src/boolexp.c:261-280 | No attribute number in a parsed lock is negative unless the text has ten digits in a row |
| LockParser.ParseText | btmux/src/boolexp.c:552-561 | The parser with its moving cursor returns the same lock as the function on values |
| LockParser.Parser.ParseL | btmux/src/boolexp.c:299-397 | One recursive-descent step moves the cursor exactly as on values |
| LockParser.Parser.ParseF | btmux/src/boolexp.c:407-499 | The same for prefix operators |
| LockParser.Parser.ParseT | btmux/src/boolexp.c:505-525 | The same for conjunctions |
| LockParser.Parser.ParseE | btmux/src/boolexp.c:530-550 | The same for disjunctions |
| LockReparse.StoredLockIsReread | btmux/src/unparse.c:58-220 | Whatever the tables of names and objects, the printed text of any lock the parser builds, if it goes into the buffer, is read part by part: each attribute as whatever its printed name, up to a slash in it, is looked up as, each object if it exists, the operators as they were with chains grouped to the right, and as the true lock if one part is lost; for locks in which no name holds a slash before an operator |
| LockCut.CutLockIsAnother | btmux/src/unparse.c:58-220 | A printed text that lost its end to the size of the buffer is never parsed as the lock that was printed, for locks in which no part of a name before a slash is looked up as the same attribute: it is read as the true lock, or as a lock with no more operators than the printed one; and, if no name holds a slash, then as what is left of that lock when some operands at its end are gone and the string of the last attribute is short |
| LockUnderstood.PrintedLockIsUnderstood | btmux/src/unparse.c:58-220 | A printed lock is parsed again as the same lock, with chains of conjunctions and of disjunctions grouped to the right, just when its text goes into the buffer, every object in it exists and every attribute is found: its printed name holds no operator and no slash and is looked up as the attribute, or #1 is asking and its number was printed; over any tables, for locks in which no name holds a slash before an operator, and, where the text was cut, no part of a name before a slash is looked up as the same attribute |
| LockUnderstood.FoundByName | btmux/src/boolexp.c:265-280 | Where names without a slash lead back to their attributes, an attribute is found just when it has a name without an operator and without a slash, or has no name and #1 is asking |
| LockUnderstood.TypedLockIsUnderstood | btmux/src/set.c:407-418 | Over such tables, whatever is typed and by whom, the text that is stored is read by a player as the lock that was typed, up to grouping, just when it goes into the buffer and he understands every part, for locks in which no name holds a slash before an operator; if it goes in and he does not, he reads the true lock, if no name in it holds a slash (#1, when no number in the lock is negative) |
| LockUnderstood.TypedUnseparated | btmux/src/boolexp.c:238-296 | Nobody but #1 can type a lock on an attribute whose name holds a slash |
| LockUnderstood.EverybodyReadsAlike | btmux/src/boolexp.c:238-397 | Any stored text is read by every player as #1 reads it, or as the true lock |
| LockEval.Evaluator.EvalBoolexp | btmux/src/boolexp.c:48-201 | Evaluation ends on every database, cyclic ones included, computes the bounded meaning and restores the nesting counter on every return |
| LockEval.Evaluator.EvalBoolexpAtr | btmux/src/boolexp.c:203-216 | The same for the text of a lock |
| LockEval.BoundDoesNotShow | btmux/src/boolexp.c:75-110 | Where every chain of @ has at most d links and the level plus d is below the limit, bounded evaluation is the evaluation without bound |
| LockEval.EvalFreeIsOne | btmux/src/boolexp.c:48-201 | Evaluation without bound does not depend on which length shows that it is well defined |
| LockEval.ChainPasses | btmux/src/boolexp.c:75-110 | On a plain chain that passes without bound, the bounded evaluation passes just when the level plus its length is below the limit |
| LockEval.CycleFails | btmux/src/boolexp.c:75-110 | A lock that refers to itself fails at every level |
| LockEval.NormalMeans | btmux/src/boolexp.c:48-201 | Grouping chains to the right decides the same for everybody |
| LockEval.StoredLockMeans | btmux/src/set.c:407-418 | The stored text of whatever was typed, if it goes into the buffer, decides what its parts decide as the tested player finds them; so, if no name in the lock holds a slash, it decides what the lock decided if he understands every part of it, and lets him pass otherwise |
| LockEval.CutLockMeans | btmux/src/unparse.c:58-220 | The stored text of a lock that does not go into the buffer, every part of which the tested player understands and no name in which holds a slash, lets him pass or decides what another lock decides that is left of the typed one: some operands at its end gone, the string of the last attribute short |
| LockEval.LongLockOpens | btmux/src/unparse.c:58-220 | "#5" typed 3277 times with bars between, 9830 characters, prints as 16384 and loses its last parenthesis; the lock refuses a player, its text lets him pass |
| LockEval.NamelessOpens | btmux/src/boolexp.c:265-280 | The lock "300:foo" of #1, while attribute 300 has no name: it refuses a player, its text lets him pass |
| LockEval.SlashNameMisread | btmux/src/boolexp.c:238-296 | The lock "300:foo" of #1, while attribute 300 is named "A/B": its text is read by everybody as a lock on the attribute "A" |
| LockEval.GoneOpens | btmux/src/boolexp.c:341-352 | The stored lock on any object that is gone lets everybody pass |
| LockEval.ReloadMeans | btmux/src/db_rw.c:655-658 | Any stored text without a newline and without ten digits in a row, parsed as #1 and written to the file: the lock is read back just when no attribute in it has a name that begins with a star or holds a slash; where no name holds a slash, the file cannot be read just when one begins with a star; and a lock that is read back and printed decides what it decided before, if it goes into the buffer again, just when the player reads the old text as #1 does if and only if he understands every part of that lock, or the lock lets him pass anyway; if it does not go in, it comes back as another lock |
| LockEval.PrintedReloads | btmux/src/db_rw.c:779-786 | A text that the printer made with the names of today, none of which holds a slash: it is empty after the restart if #1 does not understand it, and nobody does then; if he does, the file cannot be read if a name in it begins with a star, and otherwise the text comes back letter by letter; what comes back decides after the restart what it decided before, for every player |
| LockEval.PasswordStops | btmux/src/db.c:274-283 | "*Password:foo", which anybody may type: it is parsed as a lock on attribute 5, printed as it was typed, parsed again when the database is dumped, and the file cannot be read |
| LockTables.TablesMeet | btmux/src/db.c:774-788 | Tables with predefined names that begin with a star, and names chosen by players that hold a slash, an operator or both, meet all that the results on locks ask of the tables, for every player |
| LockTables.PrintedExample | btmux/src/unparse.c:58-220 | One lock with every kind of part, as it is printed into an attribute |
| LockTables.FileExample | btmux/src/db_rw.c:342-416 | The same lock, as it is written into the file |
| LockEval.NumberComesBackNamed | btmux/src/db_rw.c:655-658 | The text "300:foo", when attribute 300 has a name: it lets every player but #1 pass before the restart and asks him afterwards |
| SaneSort.SaneQsort | btmux/src/funceval.c:2076-2152 | For any answers of the comparator whatever and any choice of pivots the sort ends, permutes the range and touches nothing else; it sorts when the answers are those of a total preorder; and its depth d on n elements has 2^d <= n + 1 |
| SaneSort.Partition | btmux/src/funceval.c:2089-2132 | One pass permutes the range and, for a total preorder, splits it around the pivot |
| SaneSort.Round | btmux/src/funceval.c:2086-2151 | One round of the goto loop leaves a strictly smaller range and keeps what is settled |
| SaneSort.SmallerSide | btmux/src/funceval.c:2139-2151 | Recursing on the smaller side only adds one level for twice the elements |
| ParseTo.ParseTo | btmux/src/eval.c:58-197 | In every mode: the text splits where SplitPlaces.SplitsAtFirst says, at the first delimiter outside brackets, parentheses and braces and not after an escape; the piece that is handed out is what the flags make of the text before it (PieceTrees.TreePiece, PieceText.SqueezedPiece), as a C string in place; the rest is returned and nothing outside the piece has changed |
| ParseTo.Scan | btmux/src/eval.c:85-193 | The main loop over three pointers and a stack of at most 32: the write pointer never passes the read pointer, what is written is the treated text so far, and the loop stops where the split is |
| ParseTo.Cleanup | btmux/src/eval.c:24-46 | The trailing space goes, then the braces around the whole with the spaces inside, and the piece is ended inside the buffer |
| ParseTo.CopyBraces | btmux/src/eval.c:129-173 | A brace group is copied down with its nesting and escapes and left behind its closing brace |
| ParseTo.SplitAll | btmux/src/cque.c:986-1010 | Called until the rest is NULL with no flags, it hands out exactly the pieces of the line |
| SplitText.JoinPieces | btmux/src/eval.c:58-197 | Joining the pieces with the delimiter gives back the line, for every line and delimiter |
| SplitText.PiecesAreWhole | btmux/src/eval.c:58-197 | Every piece is one whole piece when it is split again |
| SplitPlaces.SplitsAtFirst | btmux/src/eval.c:58-197 | Every line, with unbalanced groups, escapes and any depth: it splits at the first place that holds the delimiter, is looked at and lies outside every open group (outside every group of its kind, for a closing character), and nowhere just when there is none; a group is open from its opening character, unless 32 are or the escape of the terminal stands before a bracket, to the first closing character that ends it or a group of its kind around it |
| SplitTrees.PiecesOfTree | btmux/src/eval.c:58-197 | A line with well nested groups, at most 32 deep, splits at the delimiters that stand outside the groups and nowhere else: its pieces are the texts between them |
| SplitTrees.GroupIsOnePiece | btmux/src/eval.c:121-187 | A whole group in parentheses, brackets or braces is one piece, whatever delimiters it holds |
| SplitTrees.PlainLineSplits | btmux/src/eval.c:58-197 | A text without groups and escapes splits at the first delimiter |
| PieceText.PlainPiece | btmux/src/eval.c:58-197 | With no flags a piece is the text as it stood |
| PieceText.SqueezedPiece | btmux/src/eval.c:24-197 | With spaces squeezed, a piece without escapes and braces has no space at either end and no two in a row, and all its other characters in order |
| PieceText.OnlySpacesLost | btmux/src/eval.c:85-193 | Unless braces or escapes are to be stripped, nothing but spaces is ever lost from a piece |
| PieceTrees.TreePiece | btmux/src/eval.c:85-193 | With the flags that strip braces and escapes, on a well nested line: the outermost braces go, those within stay, and of each escape by a backslash, in braces too, only the character behind it is left |
| PieceTrees.TrailingSpaceGoes | btmux/src/eval.c:27-29 | With the flag for trailing spaces alone one space goes, unless the piece is all spaces |
| PieceTrees.BracesGo | btmux/src/eval.c:30-46 | The braces around the whole go, and with compression the spaces inside them |
| PieceTrees.LeadSkipped | btmux/src/eval.c:75-80 | Spaces in front are skipped just when spaces are compressed or to be stripped there, and compression is not switched off |
| AttributeStore.Object.AtrAddRaw | btmux/src/db.c:1179-1285 | The array of attributes changes as a map does: the text, cut to the buffer, is there under its number, or the number is cleared by an empty text; array sorted, flag bits right, other bits untouched |
| AttributeStore.Object.AtrClr | btmux/src/db.c:1116-1172 | Exactly this number leaves the map, and its flag bit is cleared |
| AttributeStore.Object.AtrGetRaw | btmux/src/db.c:1338-1367 | The binary search agrees with the map |
| AttributeStore.Search | btmux/src/db.c:1211-1231 | The halving loop finds the entry, or the only place where it can be inserted |
| AttributeStore.Numbers | btmux/src/db.c:1548-1582 | A loop over atr_head and atr_next meets the numbers in strictly increasing order, and all of them just when 0 is not among them |
| AttributeStore.PlacedMap | btmux/src/db.c:1218-1259 | Replacing or inserting at the place of a number keeps the order and is an update of the map |
| AttributeStore.RemovedMap | btmux/src/db.c:1135-1141 | Closing up the array keeps the order and removes one key of the map |
| AttributeStore.MarkMirrors | btmux/src/db.c:1262-1278 | Setting the bit of an added attribute keeps all five bits equal to presence |
| AttributeStore.UnmarkMirrors | btmux/src/db.c:1149-1165 | Clearing the bit of a cleared attribute keeps all five bits equal to presence, and changes nothing when it was absent |
| AttributeText.AttributeRoundTrip | btmux/src/db.c:985-1109 | For owners and flags of 64 bits, decoding what was encoded gives the same text, owner and flags just when: the text does not look encoded, for default owner and flags; or, otherwise, the flags are not negative, the whole fits and the owner is a number of 32 bits, as the decoder accumulates it, or wraps to NOTHING and owns the object anyway |
| AttributeText.OwnerWraps | btmux/src/db.c:1037-1045 | Accumulating digits in 32 bits gives the written number modulo 2^32 |
| AttributeText.LongTextIsCut | btmux/src/db.c:985-1013 | A text of 16383 characters with a flag of its own comes back without its end |
| AttributeText.LooksEncoded | btmux/src/db.c:1028-1093 | A text with default owner and flags that looks encoded comes back as its tail with another owner |
| AttributeText.GetAdded | btmux/src/db.c:1287-1298 | What atr_add stored is what atr_get gives, under that condition, the empty text clears, and other attributes are untouched |
| AttributeText.DecodeNegative | btmux/src/db.c:1070-1093 | Negative flags are not read back: the decoder falls through and hands out the digits with the text |
| AttributeText.AtrAdd | btmux/src/db.c:1287-1298 | On the array: the map is updated with the encoded text |
| AttributeText.AtrGet | btmux/src/db.c:1369-1392 | On the array: the decoded attribute, or the defaults |
| StringIO.StringRoundTrip | btmux/src/db.c:1876-1946 | Any C string with any quotes, backslashes and newlines in it is read back as it was written, cut to the size of the buffer, and the rest of the file is left alone |
| StringIO.WriteString | btmux/src/db.c:1876-1892 | The writer appends exactly the quoted form |
| StringIO.WrittenString | btmux/src/db.c:1876-1892 | A string with a quote and a backslash, as it is written |
| StringIO.OldStringBack | btmux/src/db.c:1894-1924 | A string of the older files ends at the first newline that no carriage return precedes |
| StringIO.GetStringNoalloc | btmux/src/db.c:1894-1946 | The reader finds and leaves what the function on values says, for both forms of strings |
| AttributeFile.AttributesRoundTrip | btmux/src/db_rw.c:281-336 | Reading the attribute list that was written into an empty object gives exactly the known attributes that are saved, each with its text, and the file stands behind the list |
| AttributeFile.ReadList | btmux/src/db_rw.c:281-336 | The reading loop, with its bad characters and missing line ends, does to the object what the function on values says, until the list ends or the file does |
| AttributeFile.WriteList | btmux/src/db_rw.c:806-839 | The writing loop over the array appends exactly the list of the attributes before number 0, which are all when there is no number 0 |
| AttributeFile.ReadRef | btmux/src/db.c:1948-1954 | A number is read from one line of at most 255 characters |
| Parents.Database.DoParent | btmux/src/create.c:350-388 | A new parent is refused just when it would close a circle of at most parent_nest_lim steps; so the absence of such circles is kept |
| Parents.WalkFindsCircles | btmux/src/create.c:368-378 | The bounded walk up from the new parent meets the object just when the new link would close a circle within the limit |
| Parents.NewParentKeeps | btmux/src/create.c:368-380 | A link that the walk allows closes no circle within the limit anywhere |
| Parents.AncestorsDiffer | btmux/src/db.h:15-18 | Without short circles the walk over parents never meets an object twice |
| Parents.Database.AtrPget | btmux/src/db.c:1408-1433 | An attribute is inherited from the nearest object within the limit that offers it, and from none when none does |
| EventSpec.AtMostOnce | btmux/event/event.c:98-197 | Over every run of adding, cancelling, timers and type runs, with handlers that add and cancel at will, no event has its function called twice |
| EventSpec.RunnerCallsExactly | btmux/event/event.c:181-197 | A run by type calls, in list order, exactly the events live at the start that no function called before hits; never one that was added meanwhile |
| EventSpec.CallsExactly | btmux/event/event.c:181-197 | The same for a walk over any list of events |
| EventSpec.RunInv | btmux/event/event.c:98-197 | Events keep different identities, and one whose function was called is live no more |
| EventLaws.LiveEventIsCalled | btmux/event/event.c:98-155 | Over every run: an event that is added live, that nothing cancels and no runner calls, and whose timer goes off, is called at that moment, and is in the record of calls exactly once for ever after |
| EventLaws.TimerExactly | btmux/event/event.c:98-109 | The timer of a live event calls its function, that of a cancelled one does not; the event is known no more, and the others are as they were but for what that function cancels |
| EventLaws.NextCalls | btmux/event/event.c:98-197 | Only the timer of a live event and a run by type call functions, and exactly those |
| EventLaws.AddedExactly | btmux/event/event.c:111-155 | A new event is live or cancelled as it was asked for, due after its time or one tick, and changes no other |
| EventLaws.RemovedExactly | btmux/event/event.c:211-249 | Each way to cancel events cancels just those whose fields are all as given |
| Events.Events.Add | btmux/event/event.c:111-156 | An event, new or used before, is put at the head of the main list and of its type; all doubly linked lists stay well-formed and hold the same events, disjoint from the free list |
| Events.Events.Delete | btmux/event/event.c:159-173 | The event leaves both its lists and joins the free list; all lists stay well-formed |
| Events.Events.Wakeup | btmux/event/event.c:98-109 | The timer calls the function of a live event once and deletes the event (what the runner of timers does to the events: EventLaws.TimerExactly) |
| Events.Events.RunByType | btmux/event/event.c:181-197 | The walk over the linked list of a type, while handlers add to it and cancel, does what the runner does on values, and returns how many functions were called |
| Events.Events.Remove | btmux/event/event.c:211-249 | The four removals mark exactly the events that match |
| EventLists.RemoveFromMain | btmux/event/muxevent.h:81-82 | Taking an event out of a doubly linked list leaves the list of the others, well-formed in both directions |
| EventLists.LinkType | btmux/event/muxevent.h:85-86 | Adding at the head of one type list keeps the lists of all types those of the main list |
| EventLists.UnlinkType | btmux/event/muxevent.h:81-82 | Taking out of one type list keeps the lists of all types those of the main list |
| Mmdb.SaveAndLoad | btmux/src/mmdb.c:67-235 | Any sequence of numbers, null pointers and strings, even empty ones, written to a file of any old content while the buffer grows as it must, is read back from the file in order |
| Mmdb.Mmdb.Resize | btmux/src/mmdb.c:92-110 | Every byte in the buffer and the position stay, there is enough room, and the length is a whole number of blocks of 1024 |
| Mmdb.Mmdb.Write | btmux/src/mmdb.c:124-131 | The bytes are appended to what was written, with growth when needed |
| Mmdb.Mmdb.WriteOpaque | btmux/src/mmdb.c:210-217 | Variable-length opaque data as in section 4.10 of RFC 4506 |
| Mmdb.Mmdb.Read | btmux/src/mmdb.c:199-208 | The bytes and the residue are consumed and the position stays a multiple of four; nothing happens just when there are too few, and only a negative length passes the test without them |
| Mmdb.ParseBack | btmux/src/mmdb.c:219-235 | A null pointer, an empty string and any other string are told apart when they are read, and exactly their bytes are consumed |
| Mmdb.LongDataIsWild | btmux/src/mmdb.c:199-235 | A length of 2^31 or more is read as a negative one, which passes the test for enough bytes |
| Mmdb.WordRoundTrip | btmux/src/mmdb.c:133-144 | Unsigned integers as in section 4.2 of RFC 4506, most significant byte first, inverse in both directions |
| Mmdb.OpaqueFormat | btmux/src/mmdb.c:210-217 | Opaque data are written as their length, most significant byte first, their bytes, and zeros up to the next multiple of four |
| Macros.MacroSystem.ClearMacroSet | btmux/src/macro.c:402-438 | The set leaves the table; every slot of every player that named another set names that same set still, those that named it are empty, the current slot stays unless its own set is the one, and all references stay legal |
| Macros.ShiftKeeps | btmux/src/macro.c:425-436 | Renumbering keeps every legal slot just when the deleted number is not negative |
| Macros.MacroSystem.DoAddMacro | btmux/src/macro.c:121-159 | The first free slot gets the set, just when there is a free slot and the set exists and may be read; references stay legal |
| Macros.MacroSystem.DoDelMacro | btmux/src/macro.c:161-183 | The slot is emptied, the current slot with it; references stay legal |
| Macros.MacroSystem.DoEditMacro | btmux/src/macro.c:297-313 | Only a slot that names a set becomes current |
| Macros.MacroSystem.DoCreateMacro | btmux/src/macro.c:711-754 | The new set is last in the table and in the first free slot, which becomes current; references stay legal |
| Macros.MacroSystem.GetMacroSet | btmux/src/macro.c:666-686 | The set of the slot or of the current slot, never one that is not in the table |
| Macros.MacroSystem.Purge | btmux/src/macro.c:850-857 | The loop ends and leaves exactly the sets of players, in their order; every slot that named one names it still, all others are empty, and a current slot is given up only with its set |
| Commac.Commac.GetChannelFromAlias | btmux/src/comsys.c:69-94 | The binary search finds an alias, whatever its case, just when a scan would, and hands out the channel beside it |
| Commac.SameButCase | btmux/src/comsys.c:69-94 | Two aliases are the same to the comparison just when they agree but for the case of letters |
| Commac.Commac.AddAlias | btmux/src/comsys.c:623-648 | An alias is added just when none equals it as typed; alias and channel go in side by side and the table stays ascending although the alias is cut to five characters |
| Commac.CutClashes | btmux/src/comsys.c:623-648 | The stored alias equals one that was there just when the typed one is longer than five characters and an entry has its first five |
| Commac.SixthLetterClashes | btmux/src/comsys.c:623-648 | "abcdef" is new beside "abcde" and is stored as the same alias |
| Commac.InsertedOrdered | btmux/src/comsys.c:623-648 | The place that is found with the typed alias is right for the cut one |
| Commac.Commac.DelAlias | btmux/src/comsys.c:694-707 | The first matching alias leaves the table with its channel, and the order is kept |
| Commac.Commac.SortComAliases | btmux/src/commac.c:298-318 | The sort ends with the aliases ascending and every alias beside its own channel |
| BubbleSort.SortPairs | btmux/src/commac.c:298-318 | Passes of exchanges end for any strict order, sort the first table, permute the pairs and touch nothing else |
| BubbleSort.WrongExchanged | btmux/src/commac.c:305-316 | An exchange of neighbours takes away exactly one pair in the wrong order, which is why the passes end |
| Channel.Channel.SelectUser | btmux/src/comsys.c:527-559 | The binary search finds the player just when a scan would |
| Channel.Channel.DoJoin | btmux/src/comsys.c:400-434 | A new user is put where the table stays strictly ascending, nobody is entered twice, and a known user is only switched on |
| Channel.Channel.DelUser | btmux/src/comsys.c:713-753 | Exactly the player leaves the table and the list of listeners, and no listener is left that is not in the table |
| Channel.Channel.Disconnect | btmux/src/comsys.c:1152-1171 | Exactly the player leaves the linked list of listeners |
| ChannelHistory.SendAll | btmux/src/comsys.c:358-365 | After n messages the history is the last min(n, 20) of them, shown oldest first |
| ChannelHistory.Record | btmux/src/comsys.c:358-365 | One message more, and the oldest goes when there are twenty |
| ChannelHistory.Fifo.Push | btmux/misc/myfifo.c:66-82 | The message is added; links, ends and count stay consistent |
| ChannelHistory.Fifo.Pop | btmux/misc/myfifo.c:39-64 | The oldest message is taken; links, ends and count stay consistent |
| ChannelHistory.Fifo.TravR | btmux/misc/myfifo.c:93-100 | The walk over the links back from the last entry meets the messages oldest first |

## Left out

- CommandQueueInvariant.SemWaitAccounting: whether a wait is admitted, refused or one too many is a parameter; money, deposits and the per-owner command count are not modelled, so nothing is said about their conservation.
- CommandQueueFairness.ServedInTurn: commands that empty the run list of the waiting object itself are excluded, and so is a served command that runs the queue again.
- CommandQueueInvariant.RunsKeepInvariant: an object number counts as existing from the start of a run, since what is left of a destroyed object is an object again; the flags of objects that are going or halted are part of what an executed command may do; counters and times are unbounded integers.
- Scheduler.Scheduler.NfyQue: called with a positive limit when only the first waiters are to be notified, as its callers do.
- The restart dump of the command queue (btmux/src/cque.c:185-293), which depends on the word size of the machine.
- LockText.ParserBuilds: the parser works on sequences of characters; reading behind the terminator after an unclosed parenthesis (btmux/src/boolexp.c:313) is not modelled, and characters above 127 are not given their signed value.
- LockReparse.StoredLockIsReread: a lock on an attribute whose name holds a slash and behind it an operator, as btmux/src/predicates.c:471-484 allows, is left out; it can only be made by its number. A lock on attribute number 0, which #1 alone can type, is taken to print an empty name, where the code prints what was in the memory of the node; a negative attribute number, before the table of numbers, is looked up like any other.
- LockCut.CutLockIsAnother: excluded are the locks left out above and, over tables in which the part of a name before a slash is looked up as the same attribute, those on such names; no table that satisfies `Agree` has them.
- LockUnderstood.TypedLockIsUnderstood: every name without a slash leads back to its attribute; renaming an attribute while the server runs leaves it under its old name in the table (btmux/src/vattr.c:149-173), and then only LockReparse.StoredLockIsReread and LockUnderstood.PrintedLockIsUnderstood apply. What a lock of #1 on a name with a slash decides is stated by LockEval.StoredLockMeans through `Reread`.
- LockEval.ReloadMeans: what comes back for a lock on a name with a slash is not stated beyond that it is another lock; it depends on which attribute the reader finds or makes.
- LockFile.LockRoundTrip: creating an attribute while a lock is read is a function from names to numbers, without its effect on the table of names; no name begins with another name of the same attribute and a slash.
- LockEval.CutLockMeans: where the text breaks off, and so how many operands are gone, is not computed; LockEval.LongLockOpens does it for one family.
- LockEval.Evaluator.EvalBoolexp: the tests of objects, attributes and carried things are one oracle, and what it costs to evaluate softcode in them is not modelled.
- `free_boolexp` and `dup_bool`, which on values are the identity.
- PieceTrees.TreePiece: what strips braces and escapes is stated for lines with well nested groups; together with compression of spaces only PieceText.SqueezedPiece applies, to lines without escapes and braces.
- EventLaws.LiveEventIsCalled: when a timer goes off is not modelled, only what happens then; the tick at which an event is due is stated by EventLaws.AddedExactly.
- CommandQueueLaws.TimedWaitDue: a timer may fire in any second; that it fires at the deadline is up to the event library.
- ParseTo.ParseTo: the two flags that strip braces are not given together, as in btmux/src/command.c:990-1000, because with both the code reads before the start of an empty piece.
- SaneSort.SaneQsort: the elements are values; pointers to them are not distinguished.
- AttributeStore.Object.AtrAddRaw: a word of flags is the set of its masks; failing allocation and `atr_free`, which leaves count and flags stale, are not modelled.
- AttributeText.AttributeRoundTrip: the overflow of a signed number in the decoder is taken to wrap around, and the flags in a text that only looks encoded are not cut at 64 bits.
- AttributeFile.ReadList: a file that ends inside the list is reported; the code does not return then.
- Parents.Database.DoParent: the limit does not change while the server runs.
- EventSpec.AtMostOnce: handlers do not start the runner themselves; freeing of data by flag and the clock of the event library are not modelled, a timer is a step that picks any scheduled event.
- Events.Events.Add: the type of an event is not truncated to a character.
- The counting and first/last functions over event lists (btmux/event/event.c:254-388), which only read.
- Mmdb.Mmdb.ReadUint32: called when four bytes are there, as the code does not look; the functions for 64-bit and floating-point numbers are left out, what is copied after a negative length was let pass is not modelled, and files are sequences of bytes.
- Macros.MacroSystem.ClearMacroSet: the records of all players are a sequence; the hash table they are kept in (btmux/src/commac.c:206-296) is not modelled. What is in a macro set is not modelled.
- Commac.Commac.AddAlias: the channel exists and may be joined.
- Channel.Channel.DoJoin: messages to the channel and the loading of users from a file, with its sort, are left out.
- ChannelHistory.Fifo.Pop: not called on a queue of one entry, where the code follows a null pointer.
- Sockets, logging, help and text files, output to players, regular expressions and wildcard matching.
- Macro lookup, which searches with a different comparison than the table is sorted by.
