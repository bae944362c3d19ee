// The options of the run command: how they accumulate, and what is derived.
module RunOptions {
  import opened Machine
  import opened Text
  import opened ParseInt

  datatype Isolation = Process | Thread

  // Flags whose getopt entry stores a value directly.
  datatype Flag = Fork | LogPids | NoCleanup | Dump | AllQueues | SeparateCleanup | Verbose

  // What getopt_long returns, in turn.
  datatype Event =
    | SetFlag(flag: Flag, value: bool)
    | Help
    | Jobs(arg: string)
    | Timeout(arg: string)
    | Isolate(arg: string)
    | JunitXml(arg: string)
    | DeviceId(arg: string)
    | MissingArgument
    | Unknown

  datatype Exit = Accepted | HelpShown | UsageError

  // The options as they stand. A flag never set keeps its default.
  datatype Settings = Settings(
    jobs: Int32, timeout: Int32, isolation: Isolation, junitXml: Option<string>, deviceId: Int32,
    flags: map<Flag, bool>, patterns: seq<string>)

  function Defaults(): Settings {
    Settings(0, 0, Process, None, 1, map[SeparateCleanup := true], [])
  }

  // ----- derived settings -----

  // Do the arguments name exactly one test?
  predicate OneTest(patterns: seq<string>) {
    |patterns| == 1 && (patterns[0] == "" || patterns[0][0] != '!') && '*' !in patterns[0]
  }

  predicate ForkMode(s: Settings) {
    if Fork in s.flags then s.flags[Fork] else !OneTest(s.patterns)
  }

  // processors is what the system reports.
  function NumJobs(s: Settings, processors: int): int {
    if s.jobs > 0 then s.jobs
    else if OneTest(s.patterns) then 1
    else if !ForkMode(s) then 1
    else if s.isolation.Process? then (if processors == -1 then 1 else processors)
    else 1
  }

  function TimeoutSeconds(s: Settings): int {
    if ForkMode(s) then s.timeout else 0
  }

  // ----- what each option says on its own -----

  // A positive 32-bit integer, written as the whole argument.
  predicate IsPositive(arg: string) {
    ParseI32(arg).Some? && ParseI32(arg).value > 0
  }

  function IsolationNamed(arg: string): Option<Isolation> {
    if arg == "p" || arg == "process" then Some(Process)
    else if arg == "t" || arg == "thread" then Some(Thread)
    else None
  }

  // Does the option let parsing go on?
  predicate Fine(e: Event) {
    match e
    case SetFlag(_, _) => true
    case Help => false
    case Jobs(arg) => IsPositive(arg)
    case Timeout(arg) => IsPositive(arg)
    case Isolate(arg) => IsolationNamed(arg).Some?
    case JunitXml(_) => true
    case DeviceId(arg) => ReadInt(arg) > 0
    case MissingArgument => false
    case Unknown => false
  }

  ghost predicate AllFine(events: seq<Event>) {
    forall i :: 0 <= i < |events| ==> Fine(events[i])
  }

  function JobsOf(e: Event): Option<Int32> {
    if e.Jobs? then ParseI32(e.arg) else None
  }

  function TimeoutOf(e: Event): Option<Int32> {
    if e.Timeout? then ParseI32(e.arg) else None
  }

  function IsolationOf(e: Event): Option<Isolation> {
    if e.Isolate? then IsolationNamed(e.arg) else None
  }

  function JunitOf(e: Event): Option<Option<string>> {
    if e.JunitXml? then Some(Some(e.arg)) else None
  }

  function DeviceOf(e: Event): Option<Int32> {
    if e.DeviceId? then Some(ReadInt(e.arg)) else None
  }

  // ----- the last option of a kind wins -----

  function LastOf<T>(events: seq<Event>, f: Event -> Option<T>, was: T): T {
    if events == [] then was
    else f(events[|events| - 1]).GetOr(LastOf(events[..|events| - 1], f, was))
  }

  predicate Sets(e: Event, flag: Flag) {
    e.SetFlag? && e.flag == flag
  }

  // What the last setting of a flag says, or the default.
  function FlagOf(events: seq<Event>, flag: Flag, default: bool): bool {
    if events == [] then default
    else
      var e := events[|events| - 1];
      if Sets(e, flag) then e.value else FlagOf(events[..|events| - 1], flag, default)
  }

  function FlagsAfter(events: seq<Event>, was: map<Flag, bool>): map<Flag, bool> {
    if events == [] then was
    else
      var before, e := FlagsAfter(events[..|events| - 1], was), events[|events| - 1];
      if e.SetFlag? then before[e.flag := e.value] else before
  }

  function Final(events: seq<Event>, patterns: seq<string>): Settings {
    var d := Defaults();
    Settings(
      LastOf(events, JobsOf, d.jobs), LastOf(events, TimeoutOf, d.timeout), LastOf(events, IsolationOf, d.isolation),
      LastOf(events, JunitOf, d.junitXml), LastOf(events, DeviceOf, d.deviceId), FlagsAfter(events, d.flags), patterns)
  }

  lemma {:induction false} LastOfWins<T>(events: seq<Event>, f: Event -> Option<T>, was: T, k: nat)
    requires k < |events| && f(events[k]).Some? && forall i :: k < i < |events| ==> f(events[i]).None?
    ensures LastOf(events, f, was) == f(events[k]).value
  {
    if k < |events| - 1 {
      LastOfWins(events[..|events| - 1], f, was, k);
    }
  }

  lemma {:induction false} LastOfNone<T>(events: seq<Event>, f: Event -> Option<T>, was: T)
    requires forall i :: 0 <= i < |events| ==> f(events[i]).None?
    ensures LastOf(events, f, was) == was
  {
    if events != [] {
      LastOfNone(events[..|events| - 1], f, was);
    }
  }

  lemma {:induction false} LastOfAmong<T>(events: seq<Event>, f: Event -> Option<T>, was: T)
    ensures LastOf(events, f, was) == was ||
      exists i :: 0 <= i < |events| && f(events[i]) == Some(LastOf(events, f, was))
  {
    if events != [] {
      var n := |events| - 1;
      LastOfAmong(events[..n], f, was);
      if f(events[n]).Some? {
        assert f(events[n]) == Some(LastOf(events, f, was));
      }
    }
  }

  lemma {:induction false} FlagsAfterWins(events: seq<Event>, was: map<Flag, bool>, k: nat)
    requires k < |events| && events[k].SetFlag?
    requires forall i :: k < i < |events| ==> !Sets(events[i], events[k].flag)
    ensures events[k].flag in FlagsAfter(events, was) && FlagsAfter(events, was)[events[k].flag] == events[k].value
  {
    if k < |events| - 1 {
      FlagsAfterWins(events[..|events| - 1], was, k);
    }
  }

  lemma {:induction false} FlagsAfterNone(events: seq<Event>, was: map<Flag, bool>, flag: Flag)
    requires forall i :: 0 <= i < |events| ==> !Sets(events[i], flag)
    ensures flag in FlagsAfter(events, was) <==> flag in was
    ensures flag in was ==> FlagsAfter(events, was)[flag] == was[flag]
  {
    if events != [] {
      FlagsAfterNone(events[..|events| - 1], was, flag);
    }
  }

  // A flag's value in a map, or what it is without an entry.
  function Looked(flags: map<Flag, bool>, flag: Flag, default: bool): bool {
    if flag in flags then flags[flag] else default
  }

  lemma {:induction false} FlagsAfterIs(events: seq<Event>, was: map<Flag, bool>, flag: Flag, default: bool)
    ensures Looked(FlagsAfter(events, was), flag, default) == FlagOf(events, flag, Looked(was, flag, default))
  {
    if events != [] {
      FlagsAfterIs(events[..|events| - 1], was, flag, default);
    }
  }

  lemma FlagsFollow(events: seq<Event>)
    ensures var flags := FlagsAfter(events, Defaults().flags);
      Looked(flags, NoCleanup, false) == FlagOf(events, NoCleanup, false) &&
      Looked(flags, SeparateCleanup, true) == FlagOf(events, SeparateCleanup, true) &&
      Looked(flags, Dump, false) == FlagOf(events, Dump, false) &&
      Looked(flags, AllQueues, false) == FlagOf(events, AllQueues, false) &&
      Looked(flags, Verbose, false) == FlagOf(events, Verbose, false) &&
      Looked(flags, LogPids, false) == FlagOf(events, LogPids, false)
  {
    var was := Defaults().flags;
    FlagsAfterIs(events, was, NoCleanup, false);
    FlagsAfterIs(events, was, SeparateCleanup, true);
    FlagsAfterIs(events, was, Dump, false);
    FlagsAfterIs(events, was, AllQueues, false);
    FlagsAfterIs(events, was, Verbose, false);
    FlagsAfterIs(events, was, LogPids, false);
  }

  // ----- the command -----

  predicate IsOption(arg: string) {
    arg != "" && arg[0] == '-'
  }

  ghost predicate NoOptions(args: seq<string>) {
    forall i :: 0 <= i < |args| ==> !("-" <= args[i])
  }

  // What a caller can check: every option and argument is right on its own, and
  // a timeout comes with a fork.
  ghost predicate Acceptable(events: seq<Event>, rest: seq<string>) {
    AllFine(events) && NoOptions(rest) &&
    (!ForksOff(events, rest) || forall i :: 0 <= i < |events| ==> !events[i].Timeout?)
  }

  // --help comes before anything wrong.
  ghost predicate AsksHelp(events: seq<Event>) {
    exists k :: 0 <= k < |events| && events[k].Help? && AllFine(events[..k])
  }

  // What the runner is started with.
  datatype RunnerOptions = RunnerOptions(
    jobs: int, timeout: int, isolation: Isolation, noFork: bool, noCleanup: bool, separateCleanup: bool,
    noDumps: bool, junitXml: Option<string>, deviceId: int, allQueues: bool, verbose: bool)

  function RunnerFor(s: Settings, processors: int): RunnerOptions {
    RunnerOptions(
      NumJobs(s, processors), TimeoutSeconds(s), s.isolation, !ForkMode(s), Looked(s.flags, NoCleanup, false),
      Looked(s.flags, SeparateCleanup, true), !Looked(s.flags, Dump, false), s.junitXml, s.deviceId,
      Looked(s.flags, AllQueues, false), Looked(s.flags, Verbose, false))
  }

  const SUCCESS := 0
  const FAILURE := 1
  const USAGE_ERROR := 129

  // One form of the manual page: whether it can be read and, if the program that
  // shows it can be executed, the status that program ends with.
  datatype Page = Page(readable: bool, viewer: Option<int>)

  // How --help ends: as the viewer of the first readable form, if any.
  function HelpStatus(man: Page, text: Page): int {
    var page := if man.readable then man else text;
    if page.readable then page.viewer.GetOr(1) else 1
  }

  // Replace the process by a viewer of the manual page, or fail.
  method OpenManpage(man: Page, text: Page) returns (status: int)
    ensures status == HelpStatus(man, text)
  {
    if man.readable {
      if man.viewer.Some? {
        return man.viewer.value;
      }
      return FAILURE;
    }
    if text.readable {
      if text.viewer.Some? {
        return text.viewer.value;
      }
      return FAILURE;
    }
    return FAILURE;
  }

  class RunCommand {
    var optJobs: Int32
    var optTimeout: Int32
    var optIsolation: Isolation
    var optJunitXml: Option<string>
    var optDeviceId: Int32
    var optFlags: map<Flag, bool>
    var testPatterns: seq<string>

    function State(): Settings
      reads this
    {
      Settings(optJobs, optTimeout, optIsolation, optJunitXml, optDeviceId, optFlags, testPatterns)
    }

    constructor ()
      ensures State() == Defaults()
    {
      optJobs, optTimeout, optIsolation, optJunitXml := 0, 0, Process, None;
      optDeviceId, optFlags, testPatterns := 1, map[SeparateCleanup := true], [];
    }

    // One option.
    method TakeOption(e: Event) returns (exit: Exit)
      modifies this
      ensures exit == Accepted <==> Fine(e)
      ensures exit == HelpShown <==> e.Help?
      ensures Fine(e) ==> State() == old(State()).(
        jobs := JobsOf(e).GetOr(old(optJobs)), timeout := TimeoutOf(e).GetOr(old(optTimeout)),
        isolation := IsolationOf(e).GetOr(old(optIsolation)), junitXml := JunitOf(e).GetOr(old(optJunitXml)),
        deviceId := DeviceOf(e).GetOr(old(optDeviceId)),
        flags := if e.SetFlag? then old(optFlags)[e.flag := e.value] else old(optFlags))
    {
      match e {
        case SetFlag(flag, value) =>
          optFlags := optFlags[flag := value];
        case Help =>
          return HelpShown;
        case Jobs(arg) =>
          var n := ParseI32(arg);
          if n.None? {
            return UsageError;
          }
          optJobs := n.value;
          if optJobs <= 0 {
            return UsageError;
          }
        case Timeout(arg) =>
          var n := ParseI32(arg);
          if n.None? {
            return UsageError;
          }
          optTimeout := n.value;
          if optTimeout <= 0 {
            return UsageError;
          }
        case Isolate(arg) =>
          if arg == "p" || arg == "process" {
            optIsolation := Process;
          } else if arg == "t" || arg == "thread" {
            optIsolation := Thread;
          } else {
            return UsageError;
          }
        case JunitXml(arg) =>
          optJunitXml := Some(arg);
        case DeviceId(arg) =>
          optDeviceId := ReadInt(arg);
          if optDeviceId <= 0 {
            return UsageError;
          }
        case MissingArgument =>
          return UsageError;
        case Unknown =>
          return UsageError;
      }
      return Accepted;
    }

    // The arguments after the options.
    method TakePatterns(rest: seq<string>) returns (exit: Exit)
      modifies `testPatterns
      ensures exit == if NoOptions(rest) then Accepted else UsageError
      ensures exit == Accepted ==> testPatterns == old(testPatterns) + rest
    {
      for i := 0 to |rest|
        invariant testPatterns == old(testPatterns) + rest[..i] && NoOptions(rest[..i])
      {
        if IsOption(rest[i]) {
          return UsageError;
        }
        testPatterns := testPatterns + [rest[i]];
      }
      assert rest[..|rest|] == rest;
      return Accepted;
    }

    // The options, then the test patterns.
    method ParseArgs(events: seq<Event>, rest: seq<string>) returns (exit: Exit)
      requires State() == Defaults()
      modifies this
      ensures exit == Accepted <==> Acceptable(events, rest)
      ensures exit == Accepted ==> State() == Final(events, rest)
      ensures exit == HelpShown <==> AsksHelp(events)
    {
      for i := 0 to |events|
        invariant State() == Final(events[..i], []) && AllFine(events[..i])
      {
        assert events[..i + 1][..i] == events[..i];
        exit := TakeOption(events[i]);
        if exit != Accepted {
          assert !Fine(events[i]) && (exit.HelpShown? ==> events[i].Help?);
          return;
        }
      }
      assert events[..|events|] == events;
      exit := TakePatterns(rest);
      if exit != Accepted {
        return;
      }
      assert [] + rest == rest;
      TimeoutGiven(events);
      ForkModeIs(events, rest);
      if !ForkMode(State()) && optTimeout > 0 {
        return UsageError;
      }
      return Accepted;
    }

    // The run command. initialized and passed are what the runner answers, if
    // it is started and if it runs the tests; man and text are its manual page.
    method Start(events: seq<Event>, rest: seq<string>, processors: int, initialized: bool, passed: bool,
                 man: Page, text: Page)
      returns (status: int, runner: Option<RunnerOptions>, enabled: Option<seq<string>>, printPids: bool)
      requires State() == Defaults()
      requires processors == -1 || processors > 0
      modifies this
      ensures runner.Some? <==> Acceptable(events, rest)
      ensures runner.Some? ==>
        Consistent(events, rest, processors, runner.value) && Follows(events, rest, runner.value) &&
        enabled == (if initialized then Some(rest) else None) && printPids == FlagOf(events, LogPids, false) &&
        status == if initialized && passed then 0 else 1
      ensures runner.None? ==>
        enabled == None && !printPids && status == if AsksHelp(events) then HelpStatus(man, text) else 129
    {
      enabled, printPids := None, false;
      var exit := ParseArgs(events, rest);
      if exit == HelpShown {
        status := OpenManpage(man, text);
        return status, None, None, false;
      }
      if exit == UsageError {
        return USAGE_ERROR, None, None, false;
      }
      runner := Some(RunnerFor(State(), processors));
      FinalConsistent(events, rest, processors);
      FlagsFollow(events);
      printPids := Looked(optFlags, LogPids, false);
      if !initialized {
        return FAILURE, runner, None, printPids;
      }
      enabled := Some(testPatterns);
      status := if passed then SUCCESS else FAILURE;
    }
  }

  // ----- what an accepted command line guarantees -----

  ghost predicate GivesJobs(events: seq<Event>) {
    exists i :: 0 <= i < |events| && events[i].Jobs?
  }

  lemma TimeoutGiven(events: seq<Event>)
    requires AllFine(events)
    ensures LastOf(events, TimeoutOf, 0) > 0 <==> exists i :: 0 <= i < |events| && events[i].Timeout?
    ensures LastOf(events, TimeoutOf, 0) >= 0
  {
    LastOfAmong(events, TimeoutOf, 0);
    if forall i :: 0 <= i < |events| ==> !events[i].Timeout? {
      LastOfNone(events, TimeoutOf, 0);
    } else {
      LastOfSome(events, TimeoutOf, 0);
    }
  }

  // An option given leaves the value of one that was given.
  lemma {:induction false} LastOfSome<T>(events: seq<Event>, f: Event -> Option<T>, was: T)
    requires exists i :: 0 <= i < |events| && f(events[i]).Some?
    ensures exists i :: 0 <= i < |events| && f(events[i]) == Some(LastOf(events, f, was))
  {
    var n := |events| - 1;
    if f(events[n]).Some? {
      assert f(events[n]) == Some(LastOf(events, f, was));
    } else {
      LastOfSome(events[..n], f, was);
    }
  }

  // The settings the runner is started with agree with each other.
  ghost predicate Consistent(events: seq<Event>, rest: seq<string>, processors: int, r: RunnerOptions) {
    r.timeout == LastOf(events, TimeoutOf, 0) && r.jobs >= 1 && r.deviceId >= 1 && (r.noFork ==> r.timeout == 0) &&
    r.jobs ==
      if GivesJobs(events) then LastOf<Int32>(events, JobsOf, 0)
      else if !r.noFork && r.isolation == Process && !OneTest(rest) && processors > 0 then processors
      else 1
  }

  // The rest is as the last option of each kind says.
  ghost predicate Follows(events: seq<Event>, rest: seq<string>, r: RunnerOptions) {
    r.isolation == LastOf(events, IsolationOf, Process) && r.junitXml == LastOf(events, JunitOf, None) &&
    r.deviceId == LastOf(events, DeviceOf, 1) && (r.noFork <==> ForksOff(events, rest)) &&
    r.noCleanup == FlagOf(events, NoCleanup, false) && r.separateCleanup == FlagOf(events, SeparateCleanup, true) &&
    r.noDumps == !FlagOf(events, Dump, false) && r.allQueues == FlagOf(events, AllQueues, false) &&
    r.verbose == FlagOf(events, Verbose, false)
  }

  lemma FinalJobs(events: seq<Event>)
    requires AllFine(events)
    ensures LastOf(events, JobsOf, 0) > 0 <==> GivesJobs(events)
    ensures LastOf(events, JobsOf, 0) >= 0
  {
  }

  lemma FinalDevice(events: seq<Event>)
    requires AllFine(events)
    ensures LastOf(events, DeviceOf, 1) >= 1
  {
    LastOfAmong(events, DeviceOf, 1);
  }

  // ----- when forking is off -----

  // The last of --fork and --no-fork is --no-fork.
  ghost predicate LastIsNoFork(events: seq<Event>) {
    exists k :: 0 <= k < |events| && events[k] == SetFlag(Fork, false) &&
      forall i :: k < i < |events| ==> !Sets(events[i], Fork)
  }

  // Neither is given.
  ghost predicate ForkUnset(events: seq<Event>) {
    forall i :: 0 <= i < |events| ==> !Sets(events[i], Fork)
  }

  ghost predicate ForksOff(events: seq<Event>, rest: seq<string>) {
    LastIsNoFork(events) || (ForkUnset(events) && OneTest(rest))
  }

  lemma {:induction false} LastFork(events: seq<Event>, n: nat) returns (k: nat)
    requires n <= |events| && forall i :: n <= i < |events| ==> !Sets(events[i], Fork)
    requires !ForkUnset(events)
    ensures k < n && Sets(events[k], Fork) && forall i :: k < i < |events| ==> !Sets(events[i], Fork)
  {
    if Sets(events[n - 1], Fork) {
      k := n - 1;
    } else {
      k := LastFork(events, n - 1);
    }
  }

  // For any options: forking is off exactly when --no-fork is said last, or
  // nothing is said and the arguments are one plain test.
  lemma ForkModeIs(events: seq<Event>, rest: seq<string>)
    ensures !ForkMode(Final(events, rest)) <==> ForksOff(events, rest)
  {
    var was := Defaults().flags;
    if ForkUnset(events) {
      FlagsAfterNone(events, was, Fork);
    } else {
      var k := LastFork(events, |events|);
      FlagsAfterWins(events, was, k);
    }
  }

  // The jobs that --jobs asks for, or the default.
  lemma JobsAre(events: seq<Event>, rest: seq<string>, processors: int)
    requires AllFine(events) && (processors == -1 || processors > 0)
    ensures NumJobs(Final(events, rest), processors) ==
      if GivesJobs(events) then LastOf<Int32>(events, JobsOf, 0)
      else if !ForksOff(events, rest) && LastOf(events, IsolationOf, Process) == Process && !OneTest(rest) &&
              processors > 0 then processors
      else 1
  {
    FinalJobs(events);
    ForkModeIs(events, rest);
    var s := Final(events, rest);
    assert s.jobs == LastOf(events, JobsOf, 0) && s.isolation == LastOf(events, IsolationOf, Process);
  }

  // For every accepted command line, the runner's settings agree with each other
  // and follow the options.
  lemma FinalConsistent(events: seq<Event>, rest: seq<string>, processors: int)
    requires Acceptable(events, rest) && (processors == -1 || processors > 0)
    ensures var r := RunnerFor(Final(events, rest), processors);
      Consistent(events, rest, processors, r) && Follows(events, rest, r)
  {
    TimeoutGiven(events);
    FinalDevice(events);
    FinalJobs(events);
    ForkModeIs(events, rest);
    FlagsFollow(events);
    JobsAre(events, rest, processors);
  }

  // Exactly one test is named by one pattern that is neither an exclusion nor a
  // glob.
  lemma OneTestIs(patterns: seq<string>)
    ensures OneTest(patterns) <==> exists p :: patterns == [p] && !("!" <= p) && '*' !in p
    ensures OneTest(["func.a"]) && !OneTest(["!func.a"]) && !OneTest(["func.*"]) && !OneTest(["func.a", "func.b"])
  {
  }

  // -I and --isolation take each mode by its letter or its name.
  lemma IsolationNames(arg: string, events: seq<Event>)
    requires arg in ["p", "process", "t", "thread"]
    ensures LastOf(events + [Isolate(arg)], IsolationOf, Process) == if arg in ["t", "thread"] then Thread else Process
  {
    var all := events + [Isolate(arg)];
    assert all[|all| - 1] == Isolate(arg);
  }

  lemma NoOtherIsolation(arg: string)
    requires arg !in ["p", "process", "t", "thread"]
    ensures !Fine(Isolate(arg))
  {
  }

  // Forking is not on by default with one plain test.
  lemma OneTestDoesNotFork()
    ensures var rest := ["func.miptree.2d.levels01"];
      Acceptable([], rest) && !ForkMode(Final([], rest)) && ForkMode(Final([], [])) && ForkMode(Final([], ["func.*"]))
  {
    ForkModeIs([], ["func.miptree.2d.levels01"]);
  }

  // Several jobs without a fork happen exactly when --jobs asks for them and
  // forking is off: the code's guard only protects the default count.
  lemma JobsWithoutFork(events: seq<Event>, rest: seq<string>, processors: int)
    requires Acceptable(events, rest) && (processors == -1 || processors > 0)
    ensures var s := Final(events, rest);
      NumJobs(s, processors) > 1 && !ForkMode(s) <==>
      GivesJobs(events) && LastOf(events, JobsOf, 0) > 1 && ForksOff(events, rest)
  {
    FinalJobs(events);
    ForkModeIs(events, rest);
  }

  // crucible run -j 2 --no-fork
  lemma JobsWithoutForkExample()
    ensures var events := [Jobs("2"), SetFlag(Fork, false)];
      Acceptable(events, []) && NumJobs(Final(events, []), 8) == 2 && !ForkMode(Final(events, []))
  {
    var events := [Jobs("2"), SetFlag(Fork, false)];
    PrintParse(2);
    assert events[..1] == [Jobs("2")];
    assert Fine(events[0]) && Fine(events[1]);
    LastOfWins(events, JobsOf, 0, 0);
    ForkModeIs(events, []);
  }
}
