# A verified model of pyoneer's JSON layer, thread pool and job runner

The project models three parts of the program and proves what they are for.

**The JSON text layer** (`src/shared/json.c`, `json-builder.c`, `json-helpers.c`). `Syntax.dfy` says, independently of
any code, which texts denote which value: the grammar of sections 2 and 4 to 7 of RFC 8259, with integers of magnitude at
most 2^63 - 1, widened to raw control octets other than NUL inside strings, which the printer emits. `Machine.dfy` is the
parser's character loop as a machine without recursion; its `Step` keeps the state well formed and makes progress on every
octet sequence, so `Run` is total. The grammar has its own digits, escapes and white space and shares none of them with the
machine. `Completeness.dfy` proves that the machine accepts every text of the grammar, and when it
gives the value that the standards give; `Literals.dfy` settles number literals of every form and the numbers they are read
as. `Dialect.dfy` is the grammar of what the parser takes, with its liberties, and `Acceptance.dfy` proves that it accepts
exactly that. `Growth.dfy` proves what an accepting run never takes back, which is what makes the second pass safe.
`Parser.dfy` is the imperative two-pass parser, a class with the flag word, `top`, the counters and one cell per
allocation: the first pass counts, the second writes into allocations of exactly the counted sizes, and both passes refine
the machine. `Kinship.dfy` proves that the nodes of an accepted text form one tree, and `ParsedTrees.dfy` that objects laid
out like them are what the printer and the destructor walk over. `Printing.dfy` defines by recursion what is printed and proves that parsing undoes it in every printing mode; `Layout.dfy` says of the
same octets which white space each mode and option puts between two tokens.
`Walking.dfy`, `Serializing.dfy`, `Measuring.dfy` and `Freeing.dfy` are the stackless walks over a heap of nodes, driven by
`parent` and `length_iterated`, each proved against the recursive definition; `Building.dfy` grows and merges such trees
in place, `Sorting.dfy` reorders an object, and `Grafting.dfy` says what that does to the tree around them; `Messages.dfy` puts measuring, printing and
parsing together as the connection handler does; `Comparing.dfy` is the comparison of two values and exactly where it is
an equivalence; `Unicode.dfy` holds the arithmetic of `\u` escapes.

**The thread pool** (`src/api/thread_pool.c`). `PoolProtocol.dfy` is a transition system whose steps are the regions of
code under the lock and the returns of handlers; waiting threads are signalled or not, any thread may move next, and
spurious wakeups are allowed. `PoolRuns.dfy` proves its properties over all runs. `ThreadPools.dfy` is the pool itself, a
class over an array used as a ring, each of whose locked regions refines one step of the protocol.

**The job runner** (`src/blueprint/job.c`, `task.c`). `Attempts.dfy` is the job thread in both execution modes as a
transition system interleaved with the ends of task processes, with cancellation and restart at any point; `Laws.dfy` says
what an attempt does task by task, by the status before, the result of `task_run` and the end of the process;
`Repeating.dfy` proves that attempts end and what repeat mode counts. `Jobs.dfy` and `JobRunners.dfy` are the linked list
and the two attempt loops over objects in memory. `JobTexts.dfy` is the encoding of jobs and its round trip through text,
and `JobNodes.dfy` the same from a job in memory through nodes, octets and both parser passes to a job in memory.

Numbers of C types are mathematical integers; where a width matters it is written out (`INT_MAX` for `json_int_t`,
`ToInt` for the conversion to `int`, `WouldOverflow`). Memory allocation succeeds. What a task's process does is a
parameter: whether `task_run` succeeds, and how `waitpid` reports the end. Which waiting thread a signal wakes is a parameter too.

Five places where the code does not do what one would expect are stated as they are. The two halves of a surrogate pair
are combined with a bitwise or that also covers bit 16, so a text is read as the standards read it exactly when bit 6 of
the high half is clear in every pair (`Completeness.ParseIff`). A fraction after an integer part above 2^63 - 1 is refused,
and no other number is (`Literals.NumberLiteralIff`). The flag of a decimal point is never cleared, so a number whose integer
part is above 2^63 - 1 is misread exactly when a number with a fraction came before it (`Literals.NumberRun`,
`Literals.SecondNumberIff`). `json_value_compare` looks only the first
object's names up in the second: a value compares equal to itself and symmetrically with every value without repeated
names exactly when it has no repeated names itself (`Comparing.EquivalenceIff`). And the text that replaces a response too
large for the buffer is no JSON text: its message stands without quotes, and the parser refuses it
(`Messages.ApologyRefused`).

## Model

| member | source | states |
|---|---|---|
| Completeness.ParseComplete | src/shared/json.c:274-997 | every text of the grammar whose escaped surrogate pairs combine, with any white space, is accepted and yields exactly the value it denotes |
| Completeness.ParseReads | src/shared/json.c:274-997 | every text of the grammar is accepted, with each surrogate pair read as the parser combines it |
| Completeness.ParseIff | src/shared/json.c:354-434 | a text of the grammar is accepted with the value the standards give it if and only if bit 6 of the high unit is clear in every escaped surrogate pair of its strings and names |
| Completeness.HexValueIs | src/shared/json.c:72-101 | a hexadecimal digit is worth its position in the row of digits, in lower or upper case, and no other character is one |
| Syntax.ShortEscapes | src/shared/json.c:335-352 | the eight escapes of two characters of RFC 8259 and what each stands for |
| Acceptance.AcceptedIff | src/shared/json.c:274-997 | on every octet sequence: the parser accepts it if and only if it is a text of the dialect, which is RFC 8259 with a comma allowed after the last element, a minus sign allowed to stand without digits, any character but NUL and u allowed after a backslash, any escaped unit allowed after an escaped surrogate, any octet but NUL, the quote and the backslash allowed raw in strings, a byte order mark before the text and a NUL and anything after it, and without fractions after an integer part above 2^63 - 1 |
| Completeness.DenotesUnique | src/shared/json.c:274-997 | no text denotes two values |
| Completeness.ValueRun | src/shared/json.c:578-754 | from any state that seeks a value, at any depth, the loop reads the text of one value, takes its nodes in order and goes on right after it |
| Completeness.WouldOverflowIff | src/shared/json.c:102-105 | the overflow test holds exactly when the number with one more digit exceeds 2^63 - 1 |
| Literals.NumberRun | src/shared/json.c:707-754 | wherever a value may stand, a number literal of any form is read as one node, the integer it stands for when it is whole and fits and a double otherwise; the double is the number it stands for, in exact arithmetic, if and only if not both its integer part exceeds 2^63 - 1 and an earlier number had a fraction; a fraction after an integer part above 2^63 - 1 makes the parser refuse the text |
| Literals.NumberLiteralIff | src/shared/json.c:802-931 | a number literal of RFC 8259 is accepted if and only if not both its integer part exceeds 2^63 - 1 and a fraction follows; it is read as the number it stands for, an integer when it is whole and fits and else a double |
| Literals.IntegerLiteralIff | src/shared/json.c:802-931 | an integer literal of any length and sign is read as the integer it stands for when its magnitude is at most 2^63 - 1, and as a double of that value otherwise |
| Literals.SecondNumberIff | src/shared/json.c:802-931 | of two numbers in an array the first is read as what it stands for, and the second if and only if not both its integer part exceeds 2^63 - 1 and the first has a fraction |
| Literals.SecondNumberMisread | src/shared/json.c:802-931 | in [0.5,10000000000000000000] the second number is read as another one |
| Unicode.CombinedCodeIff | src/shared/json.c:370-389 | a surrogate pair is read as the code point of section 2.2 of RFC 2781 exactly when bit 6 of the high half is clear |
| Unicode.CombinedCodeFails | src/shared/json.c:384-388 | the two units of U+20000 are combined to U+10000 |
| Literals.PairReadIff | src/shared/json.c:354-434 | the string of any escaped surrogate pair is read as the UTF-8 form of its code point exactly when bit 6 of the high unit is clear |
| Literals.PairMisread | src/shared/json.c:354-434 | the text "\ud840\udc00", which stands for U+20000, is read as U+10000 |
| Unicode.Utf8RoundTrip | src/shared/json.c:391-432 | the octets stored for a code point decode to it under section 3 of RFC 3629 |
| Machine.Step | src/shared/json.c:318-992 | on any octets a turn keeps the state well formed and either moves on in the text or lowers a rank, the reprocessing steps included, so that every pass ends |
| Growth.RunReaches | src/shared/json.c:318-992 | in an accepting run every state's nodes, names, children and string octets are extended, never changed, by the final ones |
| Growth.NumberSkip | src/shared/json.c:714-729 | in an accepted text a number ends at the first character that is not a number character, where the second pass skips to |
| Growth.RunBalanced | src/shared/json.c:466-482 | in the nodes of an accepted text every object has exactly as many names as values |
| Kinship.AcceptedTree | src/shared/json.c:944-991 | the nodes of an accepted text form one tree: each but the first stands exactly once among its parent's children, and every child names its parent |
| ParsedTrees.ParsedTree | src/shared/json.c:944-991 | objects laid out like the nodes of an accepted text are a whole tree at rest that stands for the parsed value, as printing, pushing and freeing ask for |
| Parser.Parser.NewValue | src/shared/json.c:144-210 | the first pass takes a new counting cell, the second the next cell in the same order with the same parent, and allocates the counted sizes |
| Parser.Parser.AddBytes | src/shared/json.c:391-437 | the octets of one character are counted in the first pass and written inside their allocation in the second |
| Parser.Parser.EndName | src/shared/json.c:466-482 | a name is packed after the ones before it, inside the counted key octets |
| Parser.Parser.SkipNumber | src/shared/json.c:714-729 | the second pass takes a number as counted and goes on where the first pass stopped |
| Parser.Parser.Join | src/shared/json.c:944-991 | a complete value becomes the next child of its parent, inside the parent's allocation |
| Parser.Parser.Pass | src/shared/json.c:318-992 | each pass ends, accepts exactly when the machine does, and leaves cells that hold the machine's nodes |
| Parser.Parser.ParseEx | src/shared/json.c:274-997 | on any octets both passes agree with the machine; on acceptance each allocation is filled exactly and the cells spell the parsed value |
| Printing.PrintDenotes | src/shared/json-builder.c:750-946 | in every mode and with all options the print of a value is a text that denotes it |
| Printing.ParsePrint | src/shared/json-builder.c:750-946 | parsing undoes printing, for all values without doubles and all options |
| Printing.StringReadsBack | src/shared/json-builder.c:492-535 | an escaped string reads back as itself |
| Printing.DigitsReadBack | src/shared/json-builder.c:868-897 | the printed digits are the decimal form of the number, without a leading zero |
| Printing.EscapedByteIs | src/shared/json-builder.c:492-535 | exactly the quote, the backslash and five control characters are escaped, each as RFC 8259 lists it |
| Layout.PrintIsRendered | src/shared/json-builder.c:721-946 | the print is the tokens of the value with the white space between each two of them that the mode, the options and the number of open brackets call for |
| Layout.PackedIsBare | src/shared/json-builder.c:102-127 | in packed mode there is no white space outside strings and names |
| Layout.PrintOneLine | src/shared/json-builder.c:102-127 | only the multi-line mode breaks lines |
| Layout.DefaultPrint | src/shared/json-builder.c:42-47 | with the default options an object with one entry prints as { "a": null } |
| Serializing.SerializeString | src/shared/json-builder.c:492-535 | writes the escaped string behind what was printed |
| Serializing.SerializeInteger | src/shared/json-builder.c:868-897 | counting the digits and filling them in backwards writes exactly the decimal form |
| Walking.Descend | src/shared/json-builder.c:806-808 | going down moves one cursor and reaches the next child, whose own cursor is at rest |
| Walking.Ascend | src/shared/json-builder.c:786-794 | going up puts the cursor back and follows parent to the node before on the path |
| Serializing.SerializeEx | src/shared/json-builder.c:750-946 | the walk over any well-formed tree of printable values ends, writes exactly the recursive print and a NUL, and leaves every cursor at rest and all other fields untouched |
| Measuring.MeasureString | src/shared/json-builder.c:452-483 | the measured length of a string is the length it is printed with |
| Measuring.MeasureEx | src/shared/json-builder.c:549-714 | the measured size is the printed length, plus one, plus in multi-line mode one indentation step for every line feed printed |
| Messages.PrintNulFree | src/shared/json-builder.c:750-946 | the print of a NUL-free value has no NUL, so that strlen finds its end |
| Messages.Respond | src/api/client.c:311-325 | the buffer holds the print of the response exactly when its measured size is within the limit, and otherwise a fixed text; that is what is sent up to the NUL |
| Messages.ApologyRefused | src/api/client.c:318 | the fixed text sent in place of a response that is too large is refused by any reader that uses json_parse_ex |
| Messages.SendAndReceive | src/api/client.c:311-325 | a reader that uses the parser on what was sent gets the value of the sender's tree exactly when the response fits, and nothing otherwise |
| Messages.LettersFit | src/api/client.c:312 | a string of n letters fits exactly up to n = 4093, so there are responses that do not |
| Freeing.FreeTurn | src/shared/json-builder.c:957-1006 | a turn of the destructor takes a child or frees one node that was not freed before, and uses up a measure |
| Freeing.BuilderFree | src/shared/json-builder.c:948-1007 | the destructor ends; every node, values array, string buffer and name with an allocation of its own is freed, exactly once, and nothing else; the loop is never at a freed node |
| Building.Builderize | src/shared/json-builder.c:60-90 | a node comes to own its names, and the tree is the same tree |
| Building.ArrayPush | src/shared/json-builder.c:151-178 | the tree under the array gains the value's tree as its last child, stays well formed with cursors at rest, and its values array has exactly the room its counters say |
| Building.ObjectPush | src/shared/json-builder.c:202-269 | the tree under the object gains the named value as its last entry, with the same invariants |
| Building.Merge | src/shared/json-builder.c:404-450 | the second object's entries follow the first one's in the tree under the first, and exactly the second one's values array and node are freed |
| Grafting.ArrayPushAt | src/shared/json-builder.c:151-178 | a push into an array anywhere in a tree leaves a whole well-formed tree: the values above the array follow and every other node keeps its role |
| Grafting.ObjectPushAt | src/shared/json-builder.c:202-269 | the same for a push into an object anywhere in a tree |
| Grafting.MergeAt | src/shared/json-builder.c:404-450 | the same for a merge into an object anywhere in a tree |
| Sorting.ObjectSort | src/shared/json-builder.c:371-402 | for a prototype without repeated names the object ends with the same entries in the order of the prototype's names, those without a name there last, in a whole tree |
| Sorting.ObjectSortAt | src/shared/json-builder.c:371-402 | the same for an object anywhere in a tree |
| Comparing.ObjectGetValue | src/shared/json-helpers.c:7-22 | finds the value of the first entry with the name, as C strings, and nothing only when no entry has it |
| Comparing.ValueCompare | src/shared/json-helpers.c:107-165 | returns -1 for a null pointer, 0 when no difference is found, and otherwise the type of the first value |
| Comparing.CompareDecidesMeaning | src/shared/json-helpers.c:107-165 | between values without repeated names it finds no difference exactly when they are equal as nested maps and arrays, so there it is symmetric and reflexive |
| Comparing.EquivalenceIff | src/shared/json-helpers.c:107-165 | a value compares equal to itself and symmetrically with every value without repeated names if and only if it has no repeated names |
| Comparing.SimilarTransitive | src/shared/json-helpers.c:107-165 | without repeated names it is transitive |
| Comparing.RepeatedNamesBreakSymmetry | src/shared/json-helpers.c:144-160 | two objects, one of which repeats a name, that compare equal one way round and not the other |
| PoolProtocol.CreateInv | src/api/thread_pool.c:112-151 | a new pool satisfies the invariants |
| PoolProtocol.StepWakeups | src/api/thread_pool.c:63-79 | no step loses a wakeup: while a worker waits unsignalled, as many are signalled as jobs are queued, and so for submitters and free places |
| PoolProtocol.StepConserved | src/api/thread_pool.c:156-185 | every step keeps: accepted connections in order are the popped ones followed by the queued ones, each submission accepted at most once, the queue within its capacity |
| PoolProtocol.StepHanded | src/api/thread_pool.c:75-84 | every step keeps: the popped connections are those handled and those in a worker's hands |
| PoolProtocol.StepInv | src/api/thread_pool.c:52-194 | every step of every thread, spurious wakeups included, keeps all invariants |
| PoolRuns.FirstInFirstOut | src/api/thread_pool.c:36-185 | in every state of every run connections leave in the order accepted, none is lost or handed over twice, and none unaccepted is queued |
| PoolRuns.RejectedNeverQueued | src/api/thread_pool.c:156-177 | a rejected connection is never queued or handed over, then or later |
| PoolRuns.SubmitterTurnDoes | src/api/thread_pool.c:158-184 | a submission is rejected after shutdown; before it, its connection goes to the end of a queue with room, and at a full queue it waits with its connection |
| PoolRuns.WorkerTurnDoes | src/api/thread_pool.c:60-81 | a worker takes the oldest connection; at an empty queue it waits before shutdown and exits after it |
| PoolRuns.RejectedOnlyAfterShutdown | src/api/thread_pool.c:158-177 | in every run, if some submission is rejected the pool is shutting down |
| PoolRuns.NothingRejectedBefore | src/api/thread_pool.c:158-177 | from a new pool, whatever its size and its load, nothing is rejected before shutdown |
| PoolRuns.RunShape | src/api/thread_pool.c:52-194 | histories only grow, decisions stand, and after shutdown nothing is accepted any more |
| PoolRuns.NoDeadlock | src/api/thread_pool.c:63-79 | while a connection is queued or being handled, or a submission is open, some thread can take a real step without a spurious wakeup |
| PoolRuns.ShutdownTerminates | src/api/thread_pool.c:187-207 | after shutdown, in any interleaving, the workers take exactly as many steps as the measure loses, and nothing is accepted |
| PoolRuns.EveryoneCanMove | src/api/thread_pool.c:52-85 | after shutdown every worker that has not exited can take a step, which lowers the measure |
| PoolRuns.EverySubmitterCanLeave | src/api/thread_pool.c:160-177 | after shutdown every open submission can take a step, and is rejected by it |
| PoolRuns.ExitedStaysEmpty | src/api/thread_pool.c:68-73 | a worker exits only from an empty queue, which stays empty |
| PoolRuns.Drained | src/api/thread_pool.c:196-207 | the measure is used up exactly when all workers have exited, and then every accepted connection has been handled exactly once |
| ThreadPools.ThreadPool.Push | src/api/thread_pool.c:36-42 | the ring gains the connection at its end, with wrap-around |
| ThreadPools.ThreadPool.Pop | src/api/thread_pool.c:44-50 | the ring loses its oldest connection, with wrap-around |
| ThreadPools.ThreadPool.WorkerRegion | src/api/thread_pool.c:60-81 | the worker's locked region is exactly one worker step of the protocol: it takes the oldest connection, waits, or exits at an empty queue after shutdown |
| ThreadPools.ThreadPool.SubmitRegion | src/api/thread_pool.c:158-184 | the submitter's locked region is exactly one submitter step of the protocol: -1 exactly after shutdown, 0 exactly when there was room before it, and a wait at a full queue |
| ThreadPools.ThreadPool.RequestShutdown | src/api/thread_pool.c:187-194 | shutdown is exactly the protocol's shutdown step |
| ThreadPools.CreatePool | src/api/thread_pool.c:90-154 | a pool is made unless it would have no worker, no room or no server, and starts in the protocol's first state |
| Jobs.Job.AddTask | src/blueprint/job.c:157-176 | the list gains the task at its end |
| Jobs.Job.GetStatus | src/blueprint/job.c:86-135 | counting over the list derives the status; an empty job keeps the one it had |
| Jobs.Job.ResetStatus | src/blueprint/job.c:338-346 | every task becomes ready |
| Attempts.AttemptGoes | src/blueprint/job.c:355-466 | at every point of an attempt, in either mode and any order of finishes, each task is as at the start, running, or settled by its own outcome |
| Attempts.AttemptDetermined | src/blueprint/job.c:355-466 | an attempt that runs to its end has one outcome, a function of the statuses before and each task's own outcome |
| Attempts.ParallelRefinesSequential | src/blueprint/job.c:355-466 | from the same statuses with the same task outcomes a parallel attempt, under every finishing order, starts the same tasks and ends with the same statuses and counters as a sequential one |
| Attempts.CountersBounded | src/blueprint/job.c:338-567 | in every run with restarts and cancellation at any point: successes <= completions <= attempts <= completions + job threads created, never more runners stored than tasks, and no process outlives its thread, although a cancelled thread joins only the runners its clean-up handlers know |
| Laws.EndedLaw | src/blueprint/task.c:73-98 | exit code 0 completes a task, another makes it not ready, SIGINT incomplete, another signal ready, and anything else leaves it running |
| Laws.DerivedLaw | src/blueprint/job.c:86-122 | the job is running if a task is, else not ready if one is, else incomplete if one is, and completed when all are |
| Laws.LeftByLaw | src/blueprint/job.c:355-466 | what an attempt leaves: it goes past completed tasks and past ready or incomplete ones that start, breaks off at any other, and each started task has the status its process decides |
| Laws.AttemptLaw | src/blueprint/job.c:355-466 | every finished attempt, in either mode and any order of finishes, has started exactly the ready and incomplete tasks before the place where it broke off, and counts and leaves the statuses by that law |
| Repeating.AttemptEnds | src/blueprint/job.c:355-466 | no order of steps makes an attempt go on for ever |
| Repeating.AttemptGoesOn | src/blueprint/job.c:392-395 | until its end, the thread can go on or the process it joins can end |
| Repeating.RepeatRun | src/blueprint/job.c:422-463 | in an undisturbed repeat run every loop head after the first finds all tasks ready, attempts equal completions, and successes are the attempts that left every task completed |
| JobRunners.RunJob | src/blueprint/job.c:519-546 | a job without a site, without tasks or whose thread does not start is not run; otherwise the runner starts with its counters at zero and room for one runner per task |
| JobRunners.JobRunner.AttemptSequential | src/blueprint/job.c:422-463 | one sequential attempt over the list leaves exactly the specified statuses and counters; when it completes and does not repeat, each ready or incomplete task has the status its process decides |
| JobRunners.JobRunner.AttemptParallel | src/blueprint/job.c:360-406 | one parallel attempt, with any runners ending early, leaves the same, with the same law, and stores every runner inside task_runners |
| JobTexts.DecodeEncode | src/blueprint/job.c:250-336 | decoding an encoded job gives the job |
| JobTexts.JobRoundTrip | src/blueprint/job.c:250-336 | decoding the parse of the print of an encoded job, in every printing mode, gives the same id, modes and task names in order |
| JobTexts.DecodedAdmissible | src/blueprint/job.c:279-336 | whatever text a job is decoded from, its id is positive and its names are non-empty C strings, and sending it on loses nothing |
| JobTexts.TaskRoundTrip | src/blueprint/task.c:225-280 | decoding an encoded task gives its name |
| JobTexts.DecodeLaw | src/blueprint/job.c:279-336 | a value describes a job if and only if its first id is an integer that is positive as an int, its first tasks an array, and each item an object whose first name is a non-empty string; the mode is parallel if and only if the first execMode is the string parallel, and it repeats if and only if the first runMode is the string repeat |
| JobTexts.EncodedFields | src/blueprint/job.c:250-275 | the fields of an encoded job, by name |
| JobNodes.EncodeJob | src/blueprint/job.c:250-275 | the pushes build a well-formed tree of new nodes that stands for the job's encoding |
| JobNodes.SendJob | src/blueprint/job.c:250-336 | from a job in memory through nodes, printed octets and both parser passes to a new job with the same id, modes and task names, exactly when the encoding fits into the buffer |
| JobTexts.DecodeJob | src/blueprint/job.c:279-336 | a job is built exactly when the value describes one, with the id, the modes and the names it says, and all tasks new, distinct and ready |

## Left out

- Serializing.SerializeEx: does not print trees with doubles, whose text is left to `%g`, the added ".0" and the comma of some locales, nor INT64_MIN, whose negation overflows in the source and which the parser never yields.
- Measuring.MeasureEx: the same trees as the printer, and indent sizes of at least 0.
- Literals.NumberRun: doubles are exact reals, so that rounding is not modelled.
- Completeness.ParseReads: the grammar's numbers are integers of magnitude at most 2^63 - 1. Fractions, exponents and longer integers are covered one literal at a time, with their values, at any place of a text, by Literals.NumberRun; a fraction after an integer part above 2^63 - 1, such as 12345678901234567890.5, is a text of RFC 8259 that the parser refuses.
- Acceptance.AcceptedIff: says which texts are accepted; which value they have is proved for the grammar and for number literals, and not for the liberties.
- Comments mode, error messages, line and column numbers, custom allocators, allocation failure with its clean-up, `max_memory`, and the length guards at UINT_MAX.
- Parser.Parser.ParseEx: cells are addressed by allocation number and not by pointer, and each allocation is a sequence of its exact size.
- Growth.NumberSkip: speaks of accepted texts only, since the second pass runs on no others.
- Strings and names on the heap are sequences, with their terminating NUL left implicit outside the parser and the output buffer.
- Building.Merge: the object that is merged in is a root, since its node is freed.
- Comparing.ValueCompare: NaN and `json_none`, which no value here is.
- Sorting.ObjectSort: the prototype repeats no name and is another object than the one sorted; with a repeated name the entries placed first would be moved again.
- `json_value_free`, which frees parser trees as the destructor modelled here frees builder trees.
- Messages.Respond: the tree holds what can be printed and parsed back; sockets, and messages split over several reads, are not modelled.
- ThreadPools.CreatePool: a `pthread_create` that fails, after which the threads already made are shut down without the lock; memory can be had.
- Shutdown called from a signal handler that interrupts a holder of the lock.
- Fairness: each thread that can move is shown, not that the scheduler lets it.
- Joining a thread that has been joined already, as the runners' clean-up does after the wait loop, is taken to return at once.
- `posix_spawn`, `kill` and cancellation points: a cancelled job thread may stop anywhere, and the write of the running status is taken to come before the status at the end of the process.
- JobRunners.RunJob: memory can be had. Jobs whose task list changes while they run, and a thread that does not start in `job_runner_restart`, are not modelled.
- Worker, engine, site, logger, sockets, flags and the Go client.
