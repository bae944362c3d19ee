// Removing arguments from argv in place, and main's choice of a command.
module Argv {
  import opened Text

  // The arguments without those from start to start + count.
  function Removed(args: seq<string>, start: nat, count: nat): seq<string>
    requires start + count <= |args|
  {
    args[..start] + args[start + count..]
  }

  // Slot k after the slots from start to n have been shifted down by count.
  function Shifted(was: seq<string>, start: nat, count: nat, n: nat, k: nat): string
    requires k < |was| && n + count <= |was|
  {
    if start <= k < n then was[k + count] else was[k]
  }

  ghost predicate AllShifted(was: seq<string>, now: seq<string>, start: nat, count: nat, n: nat) {
    |now| == |was| && n + count <= |was| &&
    forall k {:trigger now[k]} :: 0 <= k < |now| ==> now[k] == Shifted(was, start, count, n, k)
  }

  // Delete argv[start..start + count] from the argc arguments, in place. The
  // loop runs to the old argc and so reads count slots past it.
  method PopArgv(start: nat, count: nat, argc: nat, argv: array<string>) returns (left: nat)
    requires start + count <= argc && argc + count <= argv.Length
    modifies argv
    ensures left == argc - count
    ensures argv[..left] == Removed(old(argv[..argc]), start, count)
    ensures AllShifted(old(argv[..]), argv[..], start, count, argc)
  {
    ghost var was := argv[..];
    for i := start to argc
      invariant forall k :: 0 <= k < argv.Length ==> argv[k] == Shifted(was, start, count, i, k)
    {
      argv[i] := argv[i + count];
    }
    assert argv[..][..argc - count] == argv[..argc - count] && was[..argc] == old(argv[..argc]);
    left := argc - count;
  }

  const OPT_VERSION := 1
  const OPT_HELP := 'h' as int

  // What getopt_long returns, in turn: a long option (0, with the value its
  // entry stores), ':' or any other character.
  datatype Event = LongOption(flag: int) | MissingArgument | Character(c: char)

  datatype Outcome = UsageError | Command(name: string)

  // Does the option end the scan?
  predicate Decides(e: Event) {
    e.LongOption? ==> e.flag == OPT_HELP || e.flag == OPT_VERSION
  }

  // What it ends it with.
  function Answer(e: Event): Outcome
    requires Decides(e)
  {
    if !e.LongOption? then UsageError else if e.flag == OPT_HELP then Command("help") else Command("version")
  }

  // The command that the options choose: None to take it from the arguments.
  function Chosen(events: seq<Event>): Option<Outcome> {
    if events == [] then None
    else if !events[0].LongOption? then Some(UsageError)
    else if events[0].flag == OPT_HELP then Some(Command("help"))
    else if events[0].flag == OPT_VERSION then Some(Command("version"))
    else Chosen(events[1..])
  }

  // Scan options until one chooses a command or is wrong, or they end.
  method ScanOptions(events: seq<Event>) returns (chosen: Option<Outcome>)
    ensures chosen == Chosen(events)
  {
    var i := 0;
    while i < |events|
      invariant 0 <= i <= |events| && Chosen(events) == Chosen(events[i..])
    {
      match events[i] {
        case LongOption(flag) =>
          if flag == OPT_HELP {
            return Some(Command("help"));
          } else if flag == OPT_VERSION {
            return Some(Command("version"));
          }
        case MissingArgument =>
          return Some(UsageError);
        case Character(_) =>
          return Some(UsageError);
      }
      assert events[i..][1..] == events[i + 1..];
      i := i + 1;
    }
    return None;
  }

  // main's parse_args: options, then the two pops. getopt has scanned argv up
  // to optind. After the arguments comes NULL, then slots for what the first
  // pop reads beyond it.
  method ParseArgs(argc: nat, argv: array<string>, events: seq<Event>, optind: nat)
    returns (outcome: Outcome, left: nat)
    requires 1 <= optind <= argc < argv.Length
    requires Chosen(events) != Some(UsageError) ==> argc + optind - 1 <= argv.Length
    modifies argv
    ensures left <= argc
    ensures Chosen(events) == Some(UsageError) ==> outcome == UsageError
    ensures Chosen(events) != Some(UsageError) && Chosen(events) != None ==>
      outcome == Chosen(events).value && argv[..left] == Removed(old(argv[..argc]), 1, optind - 1)
    ensures Chosen(events) == None && optind < argc ==>
      outcome == Command(old(argv[optind])) && argv[..left] == Removed(old(argv[..argc]), 1, optind)
    ensures Chosen(events) == None && optind == argc ==>
      outcome == Command("help") && argv[..left] == old(argv[..1])
  {
    var chosen := ScanOptions(events);
    if chosen == Some(UsageError) {
      return UsageError, argc;
    }
    ghost var args := argv[..argc];
    left := PopArgv(1, optind - 1, argc, argv);
    if chosen.Some? {
      return chosen.value, left;
    }
    if left > 1 {
      RemovedTwice(args, optind - 1);
      assert argv[1] == argv[..left][1];
      outcome := Command(argv[1]);
      left := PopArgv(1, 1, left, argv);
    } else {
      outcome := Command("help");
    }
  }

  // Removing n arguments after the first and then one more removes n + 1.
  lemma RemovedTwice(args: seq<string>, n: nat)
    requires 1 + n < |args|
    ensures Removed(Removed(args, 1, n), 1, 1) == Removed(args, 1, n + 1)
    ensures Removed(args, 1, n)[1] == args[1 + n]
  {
  }

  // ----- which option decides -----

  ghost predicate FirstDecides(events: seq<Event>, i: nat) {
    i < |events| && Decides(events[i]) && forall j :: 0 <= j < i ==> !Decides(events[j])
  }

  // The first option that ends the scan answers, whatever follows it.
  lemma {:induction false} FirstAnswers(events: seq<Event>, i: nat)
    requires FirstDecides(events, i)
    ensures Chosen(events) == Some(Answer(events[i]))
  {
    if i > 0 {
      assert forall j :: 0 <= j < i - 1 ==> events[1..][j] == events[j + 1];
      FirstAnswers(events[1..], i - 1);
    }
  }

  lemma {:induction false} NoneAnswers(events: seq<Event>)
    requires forall i :: 0 <= i < |events| ==> !Decides(events[i])
    ensures Chosen(events) == None
  {
    if events != [] {
      NoneAnswers(events[1..]);
    }
  }

  lemma {:induction false} SomeFirst(events: seq<Event>, n: nat) returns (i: nat)
    requires n < |events| && Decides(events[n])
    ensures FirstDecides(events, i)
    decreases n
  {
    if j: nat :| j < n && Decides(events[j]) {
      i := SomeFirst(events, j);
    } else {
      i := n;
    }
  }

  // What the options choose: r exactly when the first that decides answers r, so
  // a usage error exactly when that one is not a long option; and nothing exactly
  // when none decides.
  lemma {:induction false} ChosenIs(events: seq<Event>, r: Outcome)
    ensures Chosen(events) == None <==> forall i :: 0 <= i < |events| ==> !Decides(events[i])
    ensures Chosen(events) == Some(r) <==> exists i: nat :: FirstDecides(events, i) && Answer(events[i]) == r
    ensures Chosen(events) == Some(UsageError) <==> exists i: nat :: FirstDecides(events, i) && !events[i].LongOption?
  {
    if forall i :: 0 <= i < |events| ==> !Decides(events[i]) {
      NoneAnswers(events);
    } else {
      var n: nat :| n < |events| && Decides(events[n]);
      var i := SomeFirst(events, n);
      FirstAnswers(events, i);
      forall j: nat | FirstDecides(events, j)
        ensures j == i
      {
      }
    }
  }

  // So -h, though a declared short option, is an error where --help is not.
  lemma FirstOptionDecides(before: seq<Event>, e: Event, after: seq<Event>)
    requires Decides(e) && forall i :: 0 <= i < |before| ==> !Decides(before[i])
    ensures Chosen(before + [e] + after) == Some(Answer(e))
    ensures e == LongOption('h' as int) ==> Chosen(before + [e] + after) == Some(Command("help"))
    ensures e == Character('h') ==> Chosen(before + [e] + after) == Some(UsageError)
  {
    FirstAnswers(before + [e] + after, |before|);
  }

  // ----- what getopt leaves -----

  // What getopt_long returned until the scan ended: long options store one of
  // the two declared values, each is one argument, and "--" may be skipped where
  // the options end.
  ghost predicate Returned(events: seq<Event>, optind: nat) {
    (forall i :: 0 <= i < |events| && events[i].LongOption? ==> events[i].flag == 'h' as int || events[i].flag == 1) &&
    (forall i :: 0 <= i < |events| - 1 ==> !Decides(events[i])) &&
    1 <= optind <= 1 + |events| + if Chosen(events) == None then 1 else 0
  }

  // Every option of main decides, so at most one argument is skipped before the
  // pops and they read no further than the NULL after the arguments.
  lemma {:induction false} OneArgumentSkipped(events: seq<Event>, optind: nat)
    requires Returned(events, optind)
    ensures |events| <= 1 && optind <= 2 && (Chosen(events) == None <==> events == [])
  {
    ChosenIs(events, UsageError);
    assert events != [] ==> Decides(events[0]);
  }

  // main with the argv it is given: the arguments and NULL, and nothing more.
  method ParseMainArgs(argc: nat, argv: array<string>, events: seq<Event>, optind: nat)
    returns (outcome: Outcome, left: nat)
    requires argc + 1 == argv.Length && optind <= argc && Returned(events, optind)
    modifies argv
    ensures left <= argc
    ensures outcome == UsageError <==> exists e :: events == [e] && !e.LongOption?
    ensures events == [LongOption('h' as int)] ==>
      outcome == Command("help") && argv[..left] == Removed(old(argv[..argc]), 1, optind - 1)
    ensures events == [LongOption(1)] ==>
      outcome == Command("version") && argv[..left] == Removed(old(argv[..argc]), 1, optind - 1)
    ensures events == [] ==>
      if optind < argc then
        outcome == Command(old(argv[optind])) && argv[..left] == Removed(old(argv[..argc]), 1, optind)
      else outcome == Command("help") && argv[..left] == old(argv[..1])
  {
    OneArgumentSkipped(events, optind);
    if events != [] {
      FirstAnswers(events, 0);
    }
    outcome, left := ParseArgs(argc, argv, events, optind);
  }
}
