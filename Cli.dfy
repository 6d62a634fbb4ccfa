/**
 * The command line: `-i` turns on interactive selection, `-h` turns on
 * sub-headings, and any other argument names the output file, a later one
 * replacing an earlier one. Flags may appear anywhere and any number of times.
 */
module Cli {
  import opened Wrappers

  /** The settings the command line yields; `output` is `None` when no name was given. */
  datatype Options = Options(interactive: bool, useHeaders: bool, output: Option<string>)

  /** The two recognised flags; everything else is taken as the output name. */
  predicate IsFlag(arg: string)
  {
    arg == "-i" || arg == "-h"
  }

  /** The arguments after the program name (`sys.argv[1:]`). */
  function Args(argv: seq<string>): (args: seq<string>)
    ensures argv != [] ==> argv == argv[..1] + args
    ensures argv == [] ==> args == []
  {
    if argv == [] then [] else argv[1..]
  }

  /** The settings after scanning `args` from left to right. */
  function ScanArgs(args: seq<string>): Options
  {
    if args == [] then Options(false, false, None)
    else
      var opts, arg := ScanArgs(args[..|args| - 1]), args[|args| - 1];
      if arg == "-i" then opts.(interactive := true)
      else if arg == "-h" then opts.(useHeaders := true)
      else opts.(output := Some(arg))
  }

  /** `args[k]` is the last argument that is not a flag. */
  ghost predicate LastNonFlagAt(args: seq<string>, k: int)
  {
    0 <= k < |args| && !IsFlag(args[k]) && forall m :: k < m < |args| ==> IsFlag(args[m])
  }

  /** Each flag is on exactly when it occurs among the arguments. */
  lemma {:induction false} ScanArgsFlags(args: seq<string>)
    ensures ScanArgs(args).interactive <==> "-i" in args
    ensures ScanArgs(args).useHeaders <==> "-h" in args
  {
    if args != [] {
      var init, arg := args[..|args| - 1], args[|args| - 1];
      ScanArgsFlags(init);
      assert args == init + [arg];
    }
  }

  /**
   * There is no output name exactly when every argument is a flag, and
   * otherwise the name is the last argument that is not a flag.
   */
  lemma {:induction false} ScanArgsName(args: seq<string>)
    ensures ScanArgs(args).output == None <==> forall k :: 0 <= k < |args| ==> IsFlag(args[k])
    ensures ScanArgs(args).output.Some? ==>
              exists k :: LastNonFlagAt(args, k) && ScanArgs(args).output.value == args[k]
  {
    if args != [] {
      var init, arg := args[..|args| - 1], args[|args| - 1];
      ScanArgsName(init);
      var opts := ScanArgs(args);
      if !IsFlag(arg) {
        assert LastNonFlagAt(args, |args| - 1);
      } else {
        assert opts.output == ScanArgs(init).output;
        assert forall k :: 0 <= k < |init| ==> init[k] == args[k];
        if opts.output.Some? {
          var k :| LastNonFlagAt(init, k) && opts.output.value == init[k];
          assert LastNonFlagAt(args, k);
        }
      }
    }
  }

  /**
   * Interactive mode is on exactly when some argument is `-i`, headers
   * exactly when some argument is `-h`; there is no output name exactly when
   * every argument is a flag, and otherwise the name is the last argument
   * that is not a flag.
   */
  lemma ScanArgsMeaning(args: seq<string>)
    ensures ScanArgs(args).interactive <==> "-i" in args
    ensures ScanArgs(args).useHeaders <==> "-h" in args
    ensures ScanArgs(args).output == None <==> forall k :: 0 <= k < |args| ==> IsFlag(args[k])
    ensures ScanArgs(args).output.Some? ==>
              exists k :: LastNonFlagAt(args, k) && ScanArgs(args).output.value == args[k]
  {
    ScanArgsFlags(args);
    ScanArgsName(args);
  }

  /** The argument loop of the program's entry point. */
  method ParseArgs(argv: seq<string>) returns (opts: Options)
    ensures opts == ScanArgs(Args(argv))
    ensures opts.interactive <==> "-i" in Args(argv)
    ensures opts.useHeaders <==> "-h" in Args(argv)
    ensures opts.output == None <==> forall k :: 0 <= k < |Args(argv)| ==> IsFlag(Args(argv)[k])
  {
    var args := Args(argv);
    var outputFile: Option<string> := None;
    var interactive := false;
    var useHeaders := false;
    var i := 0;
    while i < |args|
      invariant 0 <= i <= |args|
      invariant Options(interactive, useHeaders, outputFile) == ScanArgs(args[..i])
    {
      assert args[..i + 1][..i] == args[..i];
      if args[i] == "-i" {
        interactive := true;
      } else if args[i] == "-h" {
        useHeaders := true;
      } else {
        outputFile := Some(args[i]);
      }
      i := i + 1;
    }
    assert args[..i] == args;
    opts := Options(interactive, useHeaders, outputFile);
    ScanArgsMeaning(args);
  }

  /** A flag repeated or placed after the name changes nothing about the name. */
  lemma FlagsAnywhere()
    ensures ScanArgs(["-h", "out.html", "-i"]) == Options(true, true, Some("out.html"))
    ensures ScanArgs(["a.html", "b.html"]).output == Some("b.html")
    ensures ScanArgs(["-i", "-i"]) == Options(true, false, None)
  {
    assert ["-h", "out.html", "-i"][..2] == ["-h", "out.html"];
    assert ["-h", "out.html"][..1] == ["-h"];
    assert ["a.html", "b.html"][..1] == ["a.html"];
    assert ["-i", "-i"][..1] == ["-i"];
  }
}
