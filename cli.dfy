/** The command line of `his` (`main`): the arguments are read left to
    right; `-m` and `-n` set the two options of the picker, and the first
    argument that is not one of them ends the scan with help, the version
    or an error. */
module Cli {

  /** What `main` does with its arguments: start the picker with the
      options found, print the usage text or the version, or report an
      invalid argument naming the program. */
  datatype Outcome =
    | Run(matchStart: bool, showIcons: bool)
    | Help
    | Version
    | Invalid(program: string)

  /** `EXIT_SUCCESS` and `EXIT_FAILURE`. */
  const ExitSuccess := 0
  const ExitFailure := 1

  predicate IsMatchStartFlag(arg: string) {
    arg == "--match-start" || arg == "-m"
  }

  predicate IsNoIconsFlag(arg: string) {
    arg == "--no-show-icons" || arg == "-n"
  }

  predicate IsHelpFlag(arg: string) {
    arg == "--help" || arg == "-h"
  }

  predicate IsVersionFlag(arg: string) {
    arg == "--version" || arg == "-v"
  }

  /** The two arguments that set an option and let the scan go on. */
  predicate IsOption(arg: string) {
    IsMatchStartFlag(arg) || IsNoIconsFlag(arg)
  }

  /** How a scan ends on an argument that is not an option. */
  function Terminal(program: string, arg: string): (o: Outcome)
    ensures o == Help <==> IsHelpFlag(arg)
    ensures o == Version <==> IsVersionFlag(arg) && !IsHelpFlag(arg)
    ensures o.Invalid? <==> !IsHelpFlag(arg) && !IsVersionFlag(arg)
    ensures o.Invalid? ==> o.program == program
  {
    if IsHelpFlag(arg) then Help
    else if IsVersionFlag(arg) then Version
    else Invalid(program)
  }

  /** The outcome of scanning `args` with the options so far. */
  function Parse(program: string, args: seq<string>, matchStart: bool, showIcons: bool): (o: Outcome)
    ensures o.Run? ==> (matchStart ==> o.matchStart) && (!showIcons ==> !o.showIcons)
    ensures o.Invalid? ==> o.program == program
  {
    if args == [] then Run(matchStart, showIcons)
    else if IsMatchStartFlag(args[0]) then Parse(program, args[1..], true, showIcons)
    else if IsNoIconsFlag(args[0]) then Parse(program, args[1..], matchStart, false)
    else Terminal(program, args[0])
  }

  /** The outcome of a whole command line; `argv[0]` is the program name.
      The defaults are plain matching with icons. */
  function CommandLine(argv: seq<string>): (o: Outcome)
    ensures o.Invalid? ==> |argv| > 1 && o.program == argv[0]
  {
    if |argv| <= 1 then Run(false, true) else Parse(argv[0], argv[1..], false, true)
  }

  /** The exit status `main` returns for an outcome (the picker's own run
      falls off the end of `main`, which returns success). */
  function ExitStatus(o: Outcome): (code: int)
    ensures code == ExitSuccess <==> !o.Invalid?
    ensures code == ExitFailure <==> o.Invalid?
  {
    if o.Invalid? then ExitFailure else ExitSuccess
  }

  /** `main`'s argument loop. */
  method ParseArgs(argv: seq<string>) returns (outcome: Outcome)
    ensures outcome == CommandLine(argv)
  {
    var matchStart, showIcons := false, true;
    if |argv| > 1 {
      var i := 1;
      while i < |argv|
        invariant 1 <= i <= |argv|
        invariant Parse(argv[0], argv[i..], matchStart, showIcons) == Parse(argv[0], argv[1..], false, true)
      {
        assert argv[i..][1..] == argv[i + 1..];
        var arg := argv[i];
        if arg == "--match-start" || arg == "-m" {
          matchStart := true;
        } else if arg == "--no-show-icons" || arg == "-n" {
          showIcons := false;
        } else if arg == "--help" || arg == "-h" {
          return Help;
        } else if arg == "--version" || arg == "-v" {
          return Version;
        } else {
          return Invalid(argv[0]);
        }
        i := i + 1;
      }
      assert argv[i..] == [];
    }
    outcome := Run(matchStart, showIcons);
  }

  /** A scan of options only starts the picker; matching is prefix-only
      when either spelling of the match-start flag is among the arguments,
      icons stay on unless either spelling of the no-icons flag is. */
  lemma {:induction false} OptionsOnly(program: string, args: seq<string>, matchStart: bool, showIcons: bool)
    requires forall k :: 0 <= k < |args| ==> IsOption(args[k])
    ensures Parse(program, args, matchStart, showIcons) ==
      Run(matchStart || "--match-start" in args || "-m" in args,
          showIcons && "--no-show-icons" !in args && "-n" !in args)
    decreases |args|
  {
    if args != [] {
      var rest := args[1..];
      assert args == [args[0]] + rest;
      assert forall k :: 0 <= k < |rest| ==> rest[k] == args[k + 1];
      if IsMatchStartFlag(args[0]) {
        OptionsOnly(program, rest, true, showIcons);
      } else {
        OptionsOnly(program, rest, matchStart, false);
      }
    }
  }

  /** Options may be repeated and given in any order: two option lists that
      hold the same arguments give the same outcome. */
  lemma OptionsCommute(program: string, a: seq<string>, b: seq<string>, matchStart: bool, showIcons: bool)
    requires forall k :: 0 <= k < |a| ==> IsOption(a[k])
    requires forall x :: x in a <==> x in b
    ensures Parse(program, a, matchStart, showIcons) == Parse(program, b, matchStart, showIcons)
  {
    assert forall k :: 0 <= k < |b| ==> b[k] in a;
    OptionsOnly(program, a, matchStart, showIcons);
    OptionsOnly(program, b, matchStart, showIcons);
  }

  /** The first argument that is not an option decides the outcome, whatever
      options came before it and whatever follows it. */
  lemma {:induction false} FirstTerminatorDecides(program: string, pre: seq<string>, arg: string, post: seq<string>,
                                                  matchStart: bool, showIcons: bool)
    requires forall k :: 0 <= k < |pre| ==> IsOption(pre[k])
    requires !IsOption(arg)
    ensures Parse(program, pre + [arg] + post, matchStart, showIcons) == Terminal(program, arg)
    decreases |pre|
  {
    var args := pre + [arg] + post;
    if pre == [] {
      assert args[0] == arg;
    } else {
      assert args[0] == pre[0] && args[1..] == pre[1..] + [arg] + post;
      if IsMatchStartFlag(pre[0]) {
        FirstTerminatorDecides(program, pre[1..], arg, post, true, showIcons);
      } else {
        FirstTerminatorDecides(program, pre[1..], arg, post, matchStart, false);
      }
    }
  }

  /** The picker starts exactly when every argument after the program name
      is an option. */
  lemma {:induction false} RunsIffAllOptions(program: string, args: seq<string>, matchStart: bool, showIcons: bool)
    ensures Parse(program, args, matchStart, showIcons).Run? <==> forall k :: 0 <= k < |args| ==> IsOption(args[k])
    decreases |args|
  {
    if args != [] {
      var rest := args[1..];
      assert forall k :: 0 <= k < |rest| ==> rest[k] == args[k + 1];
      if IsMatchStartFlag(args[0]) {
        RunsIffAllOptions(program, rest, true, showIcons);
      } else if IsNoIconsFlag(args[0]) {
        RunsIffAllOptions(program, rest, matchStart, false);
      }
      assert (forall k :: 0 <= k < |args| ==> IsOption(args[k])) <==>
        IsOption(args[0]) && (forall k :: 0 <= k < |rest| ==> IsOption(rest[k]));
    }
  }

  /** For a whole command line: `main` constructs the picker exactly when
      every argument after the program name is an option. */
  lemma CommandLineLaunches(argv: seq<string>)
    ensures CommandLine(argv).Run? <==> forall k :: 1 <= k < |argv| ==> IsOption(argv[k])
  {
    if |argv| > 1 {
      var args := argv[1..];
      RunsIffAllOptions(argv[0], args, false, true);
      assert forall k :: 0 <= k < |args| ==> args[k] == argv[k + 1];
    }
  }

  /** Worked example: an invalid argument before `-h` wins. */
  lemma InvalidBeforeHelp()
    ensures CommandLine(["his", "-x", "-h"]) == Invalid("his")
    ensures ExitStatus(CommandLine(["his", "-x", "-h"])) == ExitFailure
  {
    FirstTerminatorDecides("his", [], "-x", ["-h"], false, true);
    assert ["his", "-x", "-h"][1..] == [] + ["-x"] + ["-h"];
  }

  /** Worked example: `-h` before an invalid argument wins. */
  lemma HelpBeforeInvalid()
    ensures CommandLine(["his", "-h", "-x"]) == Help
  {
    FirstTerminatorDecides("his", [], "-h", ["-x"], false, true);
    assert ["his", "-h", "-x"][1..] == [] + ["-h"] + ["-x"];
  }

  /** Worked example: repeated options in any order. */
  lemma OptionsExample()
    ensures CommandLine(["his", "-n", "--match-start", "-n"]) == Run(true, false)
  {
    var args := ["his", "-n", "--match-start", "-n"][1..];
    assert args == ["-n", "--match-start", "-n"];
    OptionsOnly("his", args, false, true);
    assert args[1] == "--match-start" && args[0] == "-n";
  }
}
