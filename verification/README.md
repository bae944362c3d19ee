# Crucible in Dafny

Crucible is a Vulkan conformance suite. This project models the parts of it
that hold state or arithmetic worth proving something about, and proves it:

- the GLSL scraper `misc/glsl_scraper.py`: a lazy tokenizer over the lines of a
  file, the macro parser it feeds, the rewriting of each shader's text, the
  names written to the generated C file, and the dump of SPIR-V words;
- the lock-free list `include/util/cru_slist.h` and the reference counter
  `include/util/cru_refcount.h`, as atomic steps of any number of threads;
- the allocation wrappers `src/qonos/qonos.c` with the cleanup stack
  `src/util/cru_cleanup.c`, and the cleanup of a whole test, which joins every
  thread's stack through the lock-free list;
- the command line, `src/cmd/run.c`, `src/cmd/cmd.c` and `src/cmd/main.c`;
- the size arithmetic in `include/util/misc.h`.

`dafny verify dfyconfig.toml` checks the whole project.

## How it is organised

| files | what they hold |
|---|---|
| Text, Spaces, Decimal, Machine | lines and newlines, Python white space, decimal notation, C integer widths |
| Tokens, Macros, Streaming | leftmost matching on a whole text; the five delimiters; the generator, one step per yield |
| ScrapeSpec, Scraper, Shaders | what the parser makes of a token sequence; the parser and shader objects |
| ScrapeLines, RoundTrip, Unprinting, ScrapeInverse, ScrapeFile, LiteralCalls | line numbers and balance; printing calls and scraping them back; which files are printings of calls; all for whole files; calls character by character |
| Rewriting, Occurrences, Finishing, TargetEnvironment, EnvironmentRewriting, FinishText | replacement rules in general, and how often each applies; the environment before and after them; `finish_text` as an instance |
| GeneratedNames, Spirv | the C file's names and what a C compiler resolves them to; the word dump |
| SList, AtomicList, AttemptBound, AttemptWorstCase | the sequential list; the concurrent prepend, its linearization and its cost |
| Refcount | the reference counter |
| MemoryTypes, Cleanup, CreateWrappers, TestSetup, TestCleanup | choosing a memory type; the cleanup stack in memory; runs of the wrappers; the push functions and the setup phase; all threads' stacks together |
| Argv, ParseInt, RunOptions | deleting arguments; reading integers; the run command's options |
| Bits, SizeMath | masks as division by powers of two; mipmap sizes, alignment, checked arithmetic |

Two conventions. A heavy predicate is sometimes folded, that is, stated under
`forall w :: OpenP(w) ==> ...` where `OpenP` is a predicate that is always true,
so that the solver opens it only where a proof writes `assert OpenP(true)`; it
means the same as its body. And a source file is a sequence of lines, each
but the last ending in a newline, as Python's text mode delivers it.

## What the proofs found

- Two macro calls that share a line get the same generated name. Names resolve
  if and only if no call starts on the line the previous one ends on.
- `t_assert` yields to the framework before it looks at its condition
  (`src/framework/test/t_result.c:169-174`), and a thread whose test is already
  decided leaves there (`src/framework/test/t_thread.c:151-165`). A wrapper
  interrupted between a successful Vulkan call and its push leaves the object
  off the cleanup stack. This is the only way to lose one: failed conditions
  alone never do, and a test with one thread never does.
- `-j 2 --no-fork` is accepted and gives two jobs without forking, although
  the comment at `src/cmd/run.c:242-243` says the runner does not support it;
  the check guards only the default job count.
- `run --help` never reaches its `exit(0)` (`src/cmd/run.c:139-140`): the process
  becomes the manual page's viewer, or ends with 1.
- `--device-id` is read with no end pointer and cut from `long` to `int`, unlike
  the integers read with `parse_i32`. 4294967297 selects device 1 and `3abc`
  device 3; the exact condition is in `ParseInt.ReadIntWrong`.
- `main` lists `h` among its short options but treats `-h` as an unknown
  option; only `--help` is accepted (`src/cmd/main.c:47`, `src/cmd/main.c:82-85`).
- The manual page says forking is on by default; the code turns it off when
  exactly one plain test pattern is given (`src/cmd/run.c:277-281`). The model
  follows the code, and `RunOptions.ForkModeIs` says exactly when forking is off.
- `cru_pop_argv` reads `count` entries past the arguments, so its array has that
  many spare slots. In `main` no more than one argument is skipped at a time, so
  the NULL after the arguments is enough.
- Aligning overflows to 0 exactly when `n + a - 1` does not fit in 64 bits.

## Model

| member | source | states |
|---|---|---|
| Tokens.TokenizeSound | misc/glsl_scraper.py:174-208 | Leftmost matching of the whole text gives non-empty tokens, each a delimiter or free of delimiters, no two plain ones adjacent, that concatenate to the text. |
| Text.SplitLinesCorrect | misc/glsl_scraper.py:186 | Every text is the concatenation of its lines, each but the last ending in its only newline. |
| Tokens.TokenizedUnique | misc/glsl_scraper.py:174-208 | Any token sequence of that shape for a text is the one leftmost matching gives, so the shape defines the tokenization. |
| Macros.DelimitersSeparable | misc/glsl_scraper.py:174 | The five delimiters are non-empty, contain no newline, and no occurrence of one overlaps the start of another, so matching inside one line or across lines is the same. |
| Streaming.Tokenizer | misc/glsl_scraper.py:184-208 | One resumption of the generator, from any point it can be suspended at, yields the next token of leftmost matching on the whole file, or ends when there is none; at a delimiter the line counter is 1 plus the newlines before it. |
| Scraper.Parser.constructor | misc/glsl_scraper.py:177-210 | A new parser stands before the first token of the file's whole-text tokenization, at line 1. |
| Scraper.Parser.Next | misc/glsl_scraper.py:184-210 | The parser's next token is the whole file's next token; its line counter is where that delivery leaves it. |
| Scraper.Parser.HandleShaderSrc | misc/glsl_scraper.py:212-222 | Appends to the shader exactly the tokens before the parenthesis that closes the macro and consumes that one, leaving the counter on its line; with no such parenthesis it takes the rest of the file. |
| ScrapeLines.CloseAtIsShortest | misc/glsl_scraper.py:212-222 | Where the collection stops is the first place where parentheses balance: no shorter prefix has more closing than opening ones, and what was collected is balanced. |
| ScrapeSpec.SpellIsConcat | misc/glsl_scraper.py:46-47 | The collected source is the concatenation of the tokens, so nothing between the parentheses is lost or changed. |
| Scraper.Parser.HandleMacro | misc/glsl_scraper.py:224-246 | Adds one finished shader with the call's stripped stage, verbatim source and lines, or fails as the assertions and the exhausted iterator do, adding none. |
| Scraper.Parser.Run | misc/glsl_scraper.py:248-251 | A whole run finishes one shader for each macro call of the token sequence in order, and reports the first error. |
| ScrapeFile.ScrapeLinesOf | misc/glsl_scraper.py:248-251 | However the file is divided into lines, the parser's shaders are those of whole-text tokenization. |
| ScrapeLines.ShotLocated | misc/glsl_scraper.py:228-243 | Each shader's start line is the line of its opening parenthesis and its end line that of the closing one, or the final counter if the file ends first. |
| ScrapeLines.ScrapeInOrder | misc/glsl_scraper.py:186-205 | No shader ends before it starts or starts before the previous one ends. |
| ScrapeFile.ShotsInOrder | misc/glsl_scraper.py:186-246 | The same for every file, tokenized as a whole. |
| RoundTrip.AllTokenized | misc/glsl_scraper.py:174-208 | The tokens of a printed program are those of its fillers, macro names, arguments and sources put together, although no separators protect them. |
| RoundTrip.ScrapeRoundTrip | misc/glsl_scraper.py:212-251 | Printing any calls with balanced sources between texts free of macro names, and scraping the result, gives exactly those calls in order, stages stripped, sources verbatim even when they hold commas or macro names, with the lines of their parentheses. |
| ScrapeFile.PrintedProgram | misc/glsl_scraper.py:148-251 | For printed programs over the real delimiters: the round trip, and that generated names resolve if and only if there is a newline between any two calls. |
| ScrapeFile.ScrapePrinted | misc/glsl_scraper.py:176-251 | The parser object, given the lines of a printed program, ends without error with one finished shader per call. |
| ScrapeInverse.TidyIffPrinted | misc/glsl_scraper.py:174-251 | A text is the printing of some well-formed list of calls and fillers if and only if each macro name begins a call that is read without failure, is closed, and has plain device and stage; and then of exactly one list. |
| ScrapeInverse.UnprintOfPrint | misc/glsl_scraper.py:212-251 | Reading calls and fillers off a printed program's tokens gives the program back, devices, unstripped stages and fillers included. |
| ScrapeInverse.PrintOfUnprint | misc/glsl_scraper.py:212-251 | Printing what is read off a tidy text gives the text back, and what is read is well formed: fillers free of macro names, sources balanced. |
| Unprinting.OccurrenceIsToken | misc/glsl_scraper.py:174-208 | Every occurrence of a delimiter in a text is one of its tokens, none is missed. |
| Unprinting.TidyScrapes | misc/glsl_scraper.py:224-251 | Tidy tokens are scraped without error. |
| ScrapeFile.TidyFile | misc/glsl_scraper.py:174-251 | For whole files over the real delimiters: a tidy file prints exactly one program, and the shaders found are its calls. |
| ScrapeFile.SameLineClashes | misc/glsl_scraper.py:148-172 | A program of two calls on one line: both are found, and their names do not resolve. |
| LiteralCalls.PlainIff | misc/glsl_scraper.py:174 | Plain text for the scraper is exactly a non-empty text without a parenthesis, a comma or either macro name. |
| LiteralCalls.CreateCallScraped | misc/glsl_scraper.py:224-246 | Anywhere in a file, `qoCreateShaderModuleGLSL(device, STAGE, source)` written out in characters, with any blanks around the upper-case stage and any balanced source, makes one shader: that stage, that source, the lines of the parentheses. |
| LiteralCalls.InfoCallScraped | misc/glsl_scraper.py:224-246 | The same for `qoShaderModuleCreateInfoGLSL(STAGE, source)`, which has no device. |
| LiteralCalls.ScrapeOneCall | misc/glsl_scraper.py:248-251 | The parser object, given the lines of such a file, finishes that one shader without error. |
| LiteralCalls.StagesAre | misc/glsl_scraper.py:236 | Among any printed calls, a stage written between blanks is scraped as its word. |
| Spaces.StripUnique | misc/glsl_scraper.py:236 | Stripping is the one way to cut white space off both ends and leave none there. |
| Spaces.SpacesAre | misc/glsl_scraper.py:236 | The characters that are stripped are the 29 for which Python's isspace holds. |
| Spaces.StripBlanks | misc/glsl_scraper.py:236 | A visible word between blanks, tabs, newlines and carriage returns is what stripping leaves. |
| Rewriting.RewriteSnoc | misc/glsl_scraper.py:53-67 | Rewriting by several rules in one pass and then by one more is the single pass with all of them: successive replacements do not disturb each other. |
| Rewriting.OthersKept | misc/glsl_scraper.py:53-67 | A replacement neither removes nor creates an occurrence of another keyword. |
| Occurrences.RewriteSplit | misc/glsl_scraper.py:53-67 | Wherever a keyword stands, the text before it, the keyword and the text after it are rewritten on their own. |
| Occurrences.CountRewritten | misc/glsl_scraper.py:53-67 | After a pass, each replacement occurs exactly as often as it and its keyword did before: none is made or broken by what stands around it. |
| Finishing.FinishInAnyOrder | misc/glsl_scraper.py:53-67 | For any clean set of rules, chained replacements with a conditional header give one result in every order. |
| FinishText.RulesClean | misc/glsl_scraper.py:53-67 | The four keywords and replacements are such a clean set: none overlaps another or can be formed by a replacement. |
| FinishText.FinishedGlsl | misc/glsl_scraper.py:49-67 | For every text the result holds none of the four keywords and has "#version"; its newlines are the input's, and one more exactly when QO_VERSION was absent. |
| FinishText.ReplacedAround | misc/glsl_scraper.py:53-65 | In any text, each QO_EXTENSION becomes "#extension", QO_DEFINE "#define", QO_TARGET_ENV "// --target-env" and QO_VERSION "#version", and nothing around it is affected. |
| FinishText.ReplacedPlain | misc/glsl_scraper.py:53-65 | Text with none of the four keywords is kept as it is. |
| FinishText.FinishedIs | misc/glsl_scraper.py:64-67 | The result is that text, after exactly "#version 450" and a newline when the source has no QO_VERSION. |
| FinishText.FinishedHasNoKeyword | misc/glsl_scraper.py:53-67 | The result contains none of the four keywords. |
| FinishText.DirectivesCounted | misc/glsl_scraper.py:53-67 | In the result "#extension", "#define", "// --target-env" and "#version" each occur as often as they and their keywords did in the source, "#version" once more when QO_VERSION was absent. |
| FinishText.FinishGlslInAnyOrder | misc/glsl_scraper.py:53-67 | The result is the same for every order of the four replacements. |
| FinishText.FinishGlsl | misc/glsl_scraper.py:49-67 | The replacements as written, one after the other with the environment looked up on the way, compute that order-free result. |
| TargetEnvironment.TargetEnvLeftmost | misc/glsl_scraper.py:19-62 | Every keyword followed by white space and a word is found, or lies after the one found. |
| TargetEnvironment.TargetEnvFound | misc/glsl_scraper.py:19-62 | What is found is the maximal word after white space after a keyword at that place. |
| EnvironmentRewriting.EnvironmentRewritten | misc/glsl_scraper.py:53-61 | For any rules without white space: the word found after rewriting is the rewriting of the word found before, so the same keyword is chosen. |
| FinishText.EnvironmentOfSource | misc/glsl_scraper.py:53-61 | In terms of the source: the environment is the word after the first QO_TARGET_ENV that has one, with the first two replacements made in it, or empty. |
| FinishText.EnvironmentIs | misc/glsl_scraper.py:19-62 | A visible word after the first QO_TARGET_ENV and blanks, ended by a blank or the text, is the environment if it holds neither QO_EXTENSION nor QO_DEFINE. |
| FinishText.NoEnvironment | misc/glsl_scraper.py:59-61 | Without QO_TARGET_ENV the environment is empty. |
| Shaders.Shader.FinishText | misc/glsl_scraper.py:49-67 | A finished shader holds the rewritten text, environment and lines of its call, and its stream is gone. |
| GeneratedNames.ResolvesIffApart | misc/glsl_scraper.py:148-172 | For shaders in line order: the C file compiles and looking up the info name of any shader's start or end line reaches that shader and no other, if and only if each shader starts after the line the previous one ends on. |
| GeneratedNames.NamesDistinct | misc/glsl_scraper.py:150-172 | Generated names of different lines differ, and array names never equal info names. |
| GeneratedNames.PastedIs | misc/glsl_scraper.py:309-310 | The name that the file's macros paste together from a line is the one a shader's info is given. |
| GeneratedNames.NamesOfTwelve | misc/glsl_scraper.py:134-153 | The two names of a shader that ends on line 12. |
| GeneratedNames.LookupEnd | misc/glsl_scraper.py:309-316 | Under separation, the preprocessor's repeated expansion of a start or end line's name ends at the definition of that shader. |
| ScrapeFile.NamesResolve | misc/glsl_scraper.py:148-172 | The same criterion for the shaders of any file. |
| Decimal.PrintValue | misc/glsl_scraper.py:150 | Decimal notation is digits that denote the number, without a zero in front of any but 0. |
| Spirv.WordIs | misc/glsl_scraper.py:112 | A word is b0 + 2^8 b1 + 2^16 b2 + 2^24 b3 of its bytes on a little-endian machine, and mirrored on a big-endian one. |
| Spirv.MagicNumber | misc/glsl_scraper.py:112 | The bytes 03 02 23 07 are 0x07230203 on a little-endian machine. |
| Spirv.Unpack | misc/glsl_scraper.py:105-115 | Succeeds exactly for lengths divisible by 4; word i is then the number that bytes 4i to 4i + 3 are, and writing the words out in the same byte order gives back the bytes. |
| Spirv.RowsHold | misc/glsl_scraper.py:140-145 | Each word is in one row, in order; rows have one to six words and only the last has fewer than six. |
| Spirv.Dump | misc/glsl_scraper.py:139-146 | The loop terminates and writes exactly those rows. |
| Spirv.HexDigitsAre | misc/glsl_scraper.py:144 | The reader takes the sixteen hexadecimal digits in either case. |
| Spirv.RowsRead | misc/glsl_scraper.py:139-146 | Reading the written initializer, as C reads it, gives the words back. |
| Spirv.DumpBytes | misc/glsl_scraper.py:105-146 | The array dumped for any accepted bytes, read as C reads it, lists the numbers that the bytes are, four at a time, and those written out are the bytes. |
| SList.List.Length | include/util/cru_slist.h:41-52 | Counts the list's nodes. |
| SList.List.Prepend | include/util/cru_slist.h:54-64 | The contents become the new data followed by the old contents; the old nodes are the tail of the new list, and one node more is allocated. |
| SList.List.Pop | include/util/cru_slist.h:78-97 | Returns and removes the first data and frees exactly its node, which was allocated; NULL and no change on an empty list. |
| SList.List.PrependThenPop | include/util/cru_slist.h:54-97 | A pop undoes a prepend, and the same nodes are allocated as before. |
| AtomicList.StepKeeps | include/util/cru_slist.h:66-76 | Every atomic step keeps the list finite and acyclic, unpublished nodes private and distinct, and the contents unchanged except by the sequential prepend at a successful exchange. |
| AtomicList.Linearizable | include/util/cru_slist.h:54-76 | After any run of any number of threads, the contents are those of the sequential prepends of the successful calls in order, on the initial list; the calls that succeeded are those that returned, each once. |
| AtomicList.PrependAllAt | include/util/cru_slist.h:54-76 | So the data are the successful calls' in reverse order followed by the initial list's, none lost or duplicated. |
| AttemptBound.ChargedStep | include/util/cru_slist.h:75 | A thread has failed at most as often as others have succeeded, and less often while the head it last saw is out of date; every step keeps this. |
| AttemptBound.AttemptsBounded | include/util/cru_slist.h:66-76 | In every interleaving of N calls there are at most N(N+1)/2 exchanges, and at most 2N other steps, so every run ends. |
| AttemptWorstCase.BoundReached | include/util/cru_slist.h:66-76 | For every N and list some interleaving takes exactly N(N+1)/2 exchanges. |
| AttemptWorstCase.StepExists | include/util/cru_slist.h:66-76 | No call is ever blocked: in every well-formed state each unfinished call has a step. |
| AttemptWorstCase.Completed | include/util/cru_slist.h:66-76 | A run that cannot go on has every call returned with exactly one success. |
| Refcount.Counter.DoGet | include/util/cru_refcount.h:42-46 | Adds one reference, modulo 2^64, and returns the new count. |
| Refcount.Counter.DoPut | include/util/cru_refcount.h:48-52 | Drops one, modulo 2^64, and returns the new count. |
| Refcount.ValueIsBalance | include/util/cru_refcount.h:36-52 | After any interleaving the counter is 1 + gets - puts modulo 2^64. |
| Refcount.InterleavingsAgree | include/util/cru_refcount.h:36-52 | Every interleaving of given thread programs ends with the same count. |
| Refcount.ReleasesBalanceRevivals | include/util/cru_refcount.h:42-52 | With never more puts than references and no wrap, the puts that return 0 are as many as the gets that start at 0, plus one if the counter ends at 0. |
| Refcount.ReleasedOnce | include/util/cru_refcount.h:42-52 | If no get starts at 0 either, a put returns 0 exactly when it drops the last reference, and it is then the run's last operation. |
| Refcount.ReleaseCount | include/util/cru_refcount.h:42-52 | Then exactly one put returns 0 if puts reach 1 + gets, and none otherwise. |
| Refcount.RevivedReleasesTwice | include/util/cru_refcount.h:42-52 | A get at 0 can make two puts return 0. |
| Bits.AndBit | src/qonos/qonos.c:170-174 | Bit i of a mask x & y, that is x & y divided by 2^i and modulo 2, is 1 exactly when it is in both. |
| MemoryTypes.MasksAre | src/qonos/qonos.c:170-174 | In arithmetic: flags include the properties exactly when every bit of the properties is one of the flags, and type i is allowed exactly when the bits divided by 2^i are odd. |
| MemoryTypes.FindWithProperties | src/qonos/qonos.c:164-179 | Returns the least index whose bit is 1 and whose type has every bit of the properties, bits being quotients by powers of two, and the invalid index exactly when there is none. |
| MemoryTypes.FromRequirements | src/qonos/qonos.c:181-209 | A request reaches the device exactly when the checkable conditions hold and no assertion finds the thread cancelled; its size is at least the required one, its index's bit is set, and an index left open is the least allowed. |
| MemoryTypes.CanFail | src/qonos/qonos.c:131-138 | Only a valid index is requested. |
| Cleanup.Stack.Push | src/util/cru_cleanup.c:245-452 | For each of the thirty command types, lays out the command's fields and then its header, so that the stack in memory holds the old commands and the new one. |
| Cleanup.Stack.Pop | src/util/cru_cleanup.c:454-640 | From the header and fields alone, removes the last command pushed and releases its object, or only removes it in a no-op pop; says so and does nothing on an empty stack. |
| Cleanup.Stack.PopAll | src/util/cru_cleanup.c:654-666 | Empties the stack, releasing everything, last pushed first, or nothing in a no-op pop. |
| CreateWrappers.CommandReleases | src/qonos/qonos.c:242-508 | Each wrapper's push is undone by the release of the very type, device, pool and handle its Vulkan call created. |
| CreateWrappers.Create | src/qonos/qonos.c:140-508 | A wrapper returns its handle and pushes its command exactly when every assertion passes; otherwise the stack is unchanged. |
| CreateWrappers.PushedRecords | src/qonos/qonos.c:140-508 | Over any run, also one cut short, the commands pushed are those that release the objects obtained, in creation order; only an object obtained by a cancelled call is missing. |
| CreateWrappers.StopsCleanUnlessCancelled | src/qonos/qonos.c:140-508 | Something is missing if and only if the run's last call obtained its object and was cancelled at an assertion between the Vulkan call and the push. |
| CreateWrappers.FailedConditionsStopClean | src/qonos/qonos.c:140-508 | A run ended only by a failed condition misses none. |
| CreateWrappers.OneThreadStopsClean | src/framework/test/t_thread.c:151-165 | A test that has no second thread at those assertions misses none. |
| CreateWrappers.UndecidedCompletes | src/framework/test/t_thread.c:151-165 | Where no assertion finds the result final, whatever the number of threads, or none finds a second thread, a run stops at the first call whose conditions do not all hold and nowhere else. |
| CreateWrappers.CancelledBufferLeaks | src/framework/test/t_result.c:163-187 | A buffer creation cancelled because another thread has decided the result leaves its buffer unrecorded. |
| CreateWrappers.RunAndRelease | src/qonos/qonos.c:140-508 | Running any calls and then releasing the stack releases each object once, in reverse order of creation, before anything older; nothing is missing if and only if no call of the run was cancelled between its object's creation and the push. |
| CreateWrappers.ReversedAt | src/util/cru_cleanup.c:654-659 | The i-th object released is the i-th from the end of those obtained. |
| TestSetup.PushReleases | include/tapi/t_cleanup.h:56-87 | For each of the thirty push functions, running the pushed command releases exactly the object that the caller handed over, of its type and with every handle in place. |
| TestSetup.SetUp | src/framework/test/t_phase_setup.c:388-740 | The setup phase leaves on the cleanup stack, in creation order, commands for the instance, the optional debug callback, the device, the descriptor pool, the framebuffer's objects, every command pool and the rest. |
| TestSetup.SetUpAndUnwind | src/framework/test/t_phases.c:97-113 | Whatever the test pushes later is released first, then the setup's objects in reverse, so everything of the device before the device, and that before the instance. |
| TestSetup.InstanceThenDevice | src/util/cru_cleanup.c:506-514 | With an instance and then a device pushed, unwinding destroys the device and then the instance, each with the allocator it was pushed with. |
| TestCleanup.UnwindAll | src/framework/test/t_phases.c:97-113 | Pops every stack off the list and unwinds it, in list order, leaving the list and the stacks empty; with no cleanup it releases nothing. |
| TestCleanup.EveryCommandOnce | src/framework/test/t_thread.c:47 | However the threads' prepends of their stacks interleave, unwinding the finished list releases exactly what all threads have pushed, each once, and each thread's in one piece, last pushed first. |
| Argv.PopArgv | src/cmd/cmd.c:72-80 | In place, leaves the first `start` arguments followed by those from `start + count` on, and says what every other slot holds. |
| Argv.ParseArgs | src/cmd/main.c:55-100 | The first deciding option gives help, version or a usage error; else the command is the first non-option and argv[0] and exactly the arguments after the command remain; with no arguments it is help. |
| Argv.RemovedTwice | src/cmd/main.c:89-99 | The two deletions compose to one. |
| Argv.ChosenIs | src/cmd/main.c:61-87 | The options give a usage error, help or version exactly when the first of them that decides answers so, and nothing exactly when none decides. |
| Argv.FirstOptionDecides | src/cmd/main.c:61-87 | Whatever precedes and follows it, the first deciding option's answer is the outcome; --help is accepted there and -h is not. |
| Argv.OneArgumentSkipped | src/cmd/main.c:61-90 | Every option of main decides, so at most one option is returned and at most one argument is behind optind when the arguments are popped. |
| Argv.ParseMainArgs | src/cmd/main.c:55-100 | So main, with nothing after its arguments but NULL, never reads further, and the command and remaining arguments are as stated. |
| ParseInt.ParseI32Correct | src/cmd/run.c:98-117 | Accepts exactly optional white space, an optional sign and digits whose value fits in 32 signed bits, however long. |
| ParseInt.PrintParse | src/cmd/run.c:98-117 | Parsing the decimal notation of any 32-bit integer gives it back. |
| ParseInt.CSpacesAre | src/cmd/run.c:107 | The white space that may come first is the C locale's six characters. |
| ParseInt.SignRead | src/cmd/run.c:98-117 | Either sign, or none, may follow the white space, and only a minus negates. |
| ParseInt.ReadIntIs | src/cmd/run.c:171-176 | Any device argument is read as the number it begins with, saturated to 64 bits and cut to 32, or as 0 if it begins with none. |
| ParseInt.ReadIntPositive | src/cmd/run.c:171-176 | So it is accepted exactly when that cut number is positive. |
| ParseInt.ReadIntWrong | src/cmd/run.c:171-176 | It is accepted although parse_i32 would not read it so, exactly when the number does not fit in 32 bits or something follows it. |
| ParseInt.ReadIntOfPrint | src/cmd/run.c:171-176 | Any number in decimal is read as its saturated value's low 32 bits, itself only below 2^31, where parse_i32 would reject larger ones. |
| ParseInt.ReadIntSaturated | src/cmd/run.c:171-176 | Any positive number beyond 64 bits is read as -1, any negative one as 0, so neither is accepted. |
| ParseInt.PrintReadWrong | src/cmd/run.c:171-176 | A number in decimal is accepted as another device exactly from 2^31 up to 2^63 - 1 when its low 32 bits are positive. |
| ParseInt.WrongDevice | src/cmd/run.c:171-176 | 4294967297, however it is written, is read as device 1. |
| ParseInt.WrongSuffix | src/cmd/run.c:171-176 | 3abc is read as device 3. |
| RunOptions.RunCommand.TakeOption | src/cmd/run.c:128-185 | Each option changes only its own setting, or ends the run if it is wrong. |
| RunOptions.RunCommand.ParseArgs | src/cmd/run.c:119-202 | Accepts exactly when every option and argument is right on its own and a timeout comes with a fork; the settings are then those of the last option of each kind. |
| RunOptions.LastOfWins | src/cmd/run.c:128-185 | The last option of a kind decides, whatever else is between. |
| RunOptions.FlagsAfterWins | src/cmd/run.c:77-91 | The last of a flag's settings decides, so --fork and --no-fork override each other. |
| RunOptions.FlagsAfterNone | src/cmd/run.c:33-44 | A flag not given keeps its default. |
| RunOptions.FinalConsistent | src/cmd/run.c:204-284 | An accepted line has get_timeout_s() equal to the timeout given, device id and job count at least 1; without --jobs the count is the number of processors, or 1 if unknown, exactly when forking with process isolation and not exactly one test, and 1 otherwise. |
| RunOptions.ForkModeIs | src/cmd/run.c:269-284 | Forking is off exactly when --no-fork is the last of the two fork options, or neither is given and the arguments are one plain test. |
| RunOptions.OneTestDoesNotFork | src/cmd/run.c:277-281 | With no options, one plain pattern does not fork, although no pattern or a glob does. |
| RunOptions.OneTestIs | src/cmd/run.c:205-226 | Exactly one test is named by exactly one pattern that neither begins with an exclamation mark nor holds an asterisk. |
| RunOptions.IsolationNames | src/cmd/run.c:159-167 | A last --isolation of t or thread isolates by thread, one of p or process by process. |
| RunOptions.NoOtherIsolation | src/cmd/run.c:164-167 | Any other name is a usage error. |
| RunOptions.RunCommand.Start | src/cmd/run.c:286-321 | The runner is started exactly for acceptable lines, with every setting as the options say and agreeing in that way, and the process ends with 129 on a usage error, as its manual page's viewer ends or with 1 after --help, 0 after passing tests, and 1 otherwise. |
| RunOptions.OpenManpage | src/cmd/cmd.c:82-129 | Help never returns: the first readable form of the page decides, and without one, or if its viewer cannot be run, the status is 1. |
| RunOptions.JobsWithoutFork | src/cmd/run.c:228-260 | Several jobs without a fork come about exactly by an explicit --jobs above 1 with --no-fork said last or one plain test and no fork option. |
| RunOptions.JobsWithoutForkExample | src/cmd/run.c:233-236 | A command line that does so. |
| SizeMath.ShrDivides | include/util/misc.h:67 | The shift is division by a power of two. |
| SizeMath.MinifyIs | include/util/misc.h:61-68 | Zero stays zero; any other size is divided by 2^levels, and is at least 1. |
| SizeMath.MinifyAdds | include/util/misc.h:61-68 | Minifying by a and then b is minifying by a + b. |
| SizeMath.MinifyIterates | include/util/misc.h:61-68 | One level n times is n levels at once. |
| SizeMath.AndHighMask | include/util/misc.h:73 | Masking with ones from bit k up clears the low k bits. |
| SizeMath.AlignIsLeastMultiple | include/util/misc.h:70-74 | For a power of two the result is the least multiple not below n if and only if n + a - 1 does not overflow; otherwise it is 0. |
| SizeMath.LeastMultipleIsLeast | include/util/misc.h:70-74 | No other multiple from n on is smaller. |
| SizeMath.AlignIdempotent | include/util/misc.h:70-74 | Aligning twice is aligning once. |
| SizeMath.AddChecked | include/util/misc.h:76-81 | True exactly when the sum fits, and then it is the sum; otherwise it has wrapped once. |
| SizeMath.MulChecked | include/util/misc.h:83-88 | True exactly when the product fits, and then it is the product. |

## Left out

- glslang, temporary files, argument parsing, file opening and the comment dump
  of the scraper: input, output and foreign processes. SPIR-V bytes are an
  arbitrary input with either byte order.
- The regular expression engine: the token expression is leftmost matching of
  its five strings, and the environment expression is its three parts.
- A generator resumed after it has raised, or a second generator over the same
  file: the scraper makes neither.
- Spaces: white space is the set Python's isspace uses; the environment
  expression's `\s` is taken to be the same set.
- The C preprocessor beyond what the generated names use: object macros, one
  definition per name, and the line number a call is taken to be on.
- CreateWrappers.Create: the sixteen wrappers are one method over a table of
  what each creates and pushes, since their bodies differ in nothing else; the
  pool and count that `__qoAllocateCommandBuffer` asserts with C's `assert`
  are taken as asserted.
- CreateWrappers.Obtains: a Vulkan call that succeeds with a NULL handle or address
  is taken to have made nothing, so a successful mapping has a non-NULL address.
- TestCleanup.UnwindAll: each stack has one reference, its thread's, so releasing it
  unwinds it.
- `__qoAllocMemoryFromRequirements` (`src/qonos/qonos.c:211-220`) pushes nothing
  and drops the Vulkan result, so its memory is outside the cleanup property.
- Cleanup.Stack.Push: fields and headers are words instead of bytes; the vector's
  growth, the stack's reference count and what releasing a nested stack does in
  turn are not modelled.
- MemoryTypes.FromRequirements: an explicit index is below 32, where the shift
  in the source is defined.
- Vulkan calls, queue submission and handle contents: every call returns an
  arbitrary result and handle.
- getopt_long, sysconf, exit and manual pages: options are an arbitrary
  stream, of which main's are one argument each with a declared value, and the
  processor count is -1 or positive.
- RunOptions.RunCommand.Start: what the runner does with its settings; whether it
  starts and whether the tests pass are inputs.
- SizeMath.Minify: levels below 32, where the shift is defined.
- SizeMath.MulChecked: a positive second factor, since the source divides by it.
- Memory freed and reused by concurrent pops: cru_slist_pop is not thread safe
  by its own documentation, so threads only prepend.
- Weak memory: the list and the counter use sequentially consistent operations.
- The Vulkan headers, string, vector and image code, the test runner, and the
  other commands: no logic that these properties need.
