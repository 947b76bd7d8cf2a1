/** How the command line picks a command: each command word is looked for
    ANYWHERE in the arguments, and a command that takes an argument takes the
    second one, and only when there are exactly two. */
module Cli {

  datatype Command =
    | List(name: string)
    | Switch(name: string)
    | Add(version: string)
    | Remove(name: string)
    | ShowVersion
    | ShowHelp

  /** The command chosen for the arguments after the program name. */
  function Dispatch(argv: seq<string>): (c: Command)
    ensures c.List? <==> "list" in argv || "ls" in argv
    ensures c.List? ==> c.name == if |argv| == 2 then argv[1] else "all"
    ensures c.Switch? <==>
              && |argv| == 2
              && ("switch" in argv || "sw" in argv)
              && !("list" in argv || "ls" in argv)
    ensures c.Add? <==>
              && |argv| == 2
              && "add" in argv
              && !("list" in argv || "ls" in argv || "switch" in argv || "sw" in argv)
    ensures c.Remove? <==>
              && |argv| == 2
              && ("remove" in argv || "rm" in argv)
              && !("list" in argv || "ls" in argv || "switch" in argv || "sw" in argv || "add" in argv)
    ensures c.ShowVersion? <==>
              && ("-v" in argv || "--version" in argv)
              && !("list" in argv || "ls" in argv || "switch" in argv || "sw" in argv || "add" in argv
                   || "remove" in argv || "rm" in argv)
    ensures c.Switch? ==> c.name == argv[1]
    ensures c.Add? ==> c.version == argv[1]
    ensures c.Remove? ==> c.name == argv[1]
  {
    if "list" in argv || "ls" in argv then
      if |argv| == 2 then List(argv[1]) else List("all")
    else if "switch" in argv || "sw" in argv then
      if |argv| == 2 then Switch(argv[1]) else ShowHelp
    else if "add" in argv then
      if |argv| == 2 then Add(argv[1]) else ShowHelp
    else if "remove" in argv || "rm" in argv then
      if |argv| == 2 then Remove(argv[1]) else ShowHelp
    else if "-v" in argv || "--version" in argv then ShowVersion
    else ShowHelp
  }

  /** Away from the two-argument case, only which words occur matters, not
      their positions or how often they occur. */
  lemma DispatchIgnoresPositions(a: seq<string>, b: seq<string>)
    requires |a| != 2 && |b| != 2
    requires forall x :: x in a <==> x in b
    ensures Dispatch(a) == Dispatch(b)
  {
  }

  /** `list` needs no argument: with none, or with too many, every tool is listed. */
  lemma ListDefaultsToAll(argv: seq<string>)
    requires "list" in argv || "ls" in argv
    requires |argv| != 2
    ensures Dispatch(argv) == List("all")
  {
  }

  /** The help text advertises `-V`, but only lower-case `-v` shows the version. */
  lemma UpperCaseVShowsHelp()
    ensures Dispatch(["-V"]) == ShowHelp
    ensures Dispatch(["-v"]) == ShowVersion
  {
  }

  /** A command word in second place is still found, and the second argument
      is then that word itself. */
  lemma CommandWordInSecondPlace()
    ensures Dispatch(["1.0", "add"]) == Add("add")
    ensures Dispatch(["rm", "ls"]) == List("ls")
  {
  }
}
