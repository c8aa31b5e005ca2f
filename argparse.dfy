/**
 * The parser's three builder classes. Every builder call updates one field
 * of its object in place and returns the object itself; `Handle` and the two
 * `Help` methods run the source's loops and are proved to compute the
 * functions of the Dispatch and Help modules on the objects' current state
 * (their `Model()`), and `GetRequiredFlags` is proved to compute
 * `RequiredFlags`.
 */
module Argparse {
  import opened Tokens
  import opened Schema
  import opened Help
  import opened Dispatch
  import Js

  /** Identity of a command's handler function; what the handler does is not modelled. */
  type HandlerId = nat

  /**
   * What `Command.execute` does: return `null` when its guard holds, throw
   * because no handler was set (`func` is still `null`), or call the handler.
   */
  datatype Execution = Skipped | NotCallable | Called(handler: HandlerId, params: seq<Token>, flags: FlagMap)

  class Flag {
    var name: string
    var description: string
    var expectedArgs: int
    var aliases: seq<string>
    var required: bool

    constructor (name: string)
      ensures Model() == FlagSpec(name, "", 0, [], false)
    {
      this.name := name;
      description := "";
      expectedArgs := 0;
      aliases := [];
      required := false;
    }

    function Model(): FlagSpec
      reads this
    {
      FlagSpec(name, description, expectedArgs, aliases, required)
    }

    method SetDescription(description: string) returns (self: Flag)
      modifies this
      ensures self == this && Model() == old(Model()).(description := description)
    {
      this.description := description;
      self := this;
    }

    method SetExpectedArgs(expectedArgs: int) returns (self: Flag)
      modifies this
      ensures self == this && Model() == old(Model()).(expectedArgs := expectedArgs)
    {
      this.expectedArgs := expectedArgs;
      self := this;
    }

    method AddAlias(alias: string) returns (self: Flag)
      modifies this
      ensures self == this && Model() == old(Model()).(aliases := old(aliases) + [alias])
    {
      aliases := aliases + [alias];
      self := this;
    }

    method SetRequired(required: bool) returns (self: Flag)
      modifies this
      ensures self == this && Model() == old(Model()).(required := required)
    {
      this.required := required;
      self := this;
    }
  }

  /** The snapshots of a list of flags, in order. */
  function FlagModels(fs: seq<Flag>): (r: seq<FlagSpec>)
    reads fs
    ensures |r| == |fs| && forall i :: 0 <= i < |fs| ==> r[i] == fs[i].Model()
  {
    if fs == [] then [] else [fs[0].Model()] + FlagModels(fs[1..])
  }

  /** The flags of `fs` marked required, in declaration order. */
  function RequiredFlags(fs: seq<Flag>): seq<Flag>
    reads fs
  {
    if fs == [] then []
    else
      var last := if fs[|fs| - 1].required then [fs[|fs| - 1]] else [];
      RequiredFlags(fs[..|fs| - 1]) + last
  }

  class Command {
    var name: string
    var description: string
    var func: Option<HandlerId>
    var expectedArgs: int
    var argDescriptions: seq<string>
    var flags: seq<Flag>
    var aliases: seq<string>

    constructor (name: string)
      ensures Model() == CommandSpec(name, "", 0, [], [], []) && func == None && flags == []
    {
      this.name := name;
      description := "";
      func := None;
      expectedArgs := 0;
      argDescriptions := [];
      flags := [];
      aliases := [];
    }

    function Model(): CommandSpec
      reads this, flags
    {
      CommandSpec(name, description, expectedArgs, argDescriptions, FlagModels(flags), aliases)
    }

    method SetDescription(description: string) returns (self: Command)
      modifies this
      ensures self == this && flags == old(flags) && func == old(func)
      ensures Model() == old(Model()).(description := description)
    {
      this.description := description;
      self := this;
    }

    method SetFunc(func: HandlerId) returns (self: Command)
      modifies this
      ensures self == this && flags == old(flags) && this.func == Some(func)
      ensures Model() == old(Model())
    {
      this.func := Some(func);
      self := this;
    }

    method SetExpectedArgs(expectedArgs: int) returns (self: Command)
      modifies this
      ensures self == this && flags == old(flags) && func == old(func)
      ensures Model() == old(Model()).(expectedArgs := expectedArgs)
    {
      this.expectedArgs := expectedArgs;
      self := this;
    }

    method AddFlag(flag: Flag) returns (self: Command)
      modifies this
      ensures self == this && flags == old(flags) + [flag] && func == old(func)
      ensures Model() == old(Model()).(flags := old(Model().flags) + [flag.Model()])
    {
      flags := flags + [flag];
      self := this;
    }

    method AddAlias(alias: string) returns (self: Command)
      modifies this
      ensures self == this && flags == old(flags) && func == old(func)
      ensures Model() == old(Model()).(aliases := old(aliases) + [alias])
    {
      aliases := aliases + [alias];
      self := this;
    }

    method AddArgDescription(text: string) returns (self: Command)
      modifies this
      ensures self == this && flags == old(flags) && func == old(func)
      ensures Model() == old(Model()).(argDescriptions := old(argDescriptions) + [text])
    {
      argDescriptions := argDescriptions + [text];
      self := this;
    }

    /** `getRequiredFlags`: exactly the required flags, in declaration order. */
    method GetRequiredFlags() returns (r: seq<Flag>)
      ensures r == RequiredFlags(flags)
      ensures forall f :: f in r <==> f in flags && f.required
    {
      r := [];
      var i := 0;
      while i < |flags|
        invariant i <= |flags|
        invariant r == RequiredFlags(flags[..i])
        invariant forall f :: f in r <==> f in flags[..i] && f.required
      {
        assert flags[..i + 1][..i] == flags[..i];
        assert flags[..i + 1] == flags[..i] + [flags[i]];
        if flags[i].required {
          r := r + [flags[i]];
        }
        i := i + 1;
      }
      assert flags[..i] == flags;
    }

    /**
     * `execute`: its guard compares the boolean `!params.length` with a
     * number, so it never holds and the handler is always called.
     */
    method Execute(params: seq<Token>, flagMap: FlagMap) returns (e: Execution)
      ensures func.Some? ==> e == Called(func.value, params, flagMap)
      ensures func.None? ==> e == NotCallable
    {
      var guard := Js.StrictEquals(Js.Not(|params| != 0), Js.Number(expectedArgs));
      e := if guard then Skipped
        else if func.None? then NotCallable
        else Called(func.value, params, flagMap);
    }

    /** `help`: the command's help text: the header, then the positional and flag sections. */
    method Help() returns (text: string)
      ensures text == CommandHelpText(Model())
    {
      text := "\nName: " + name + "\nDescription: " + description + "\nExpected args: " + IntToString(expectedArgs) + "\n";
      text := AppendPositionals(text);
      text := AppendFlags(text);
    }

    /** The `Positional args` part of `help`, present only when some description was added. */
    method AppendPositionals(before: string) returns (text: string)
      ensures text == before + PositionalSection(Model())
    {
      text := before;
      if |argDescriptions| > 0 {
        text := text + "\nPositional args:\n";
        ghost var start := text;
        var idx := 0;
        while idx < |argDescriptions|
          invariant idx <= |argDescriptions|
          invariant text == start + PositionalLines(argDescriptions[..idx], 0)
        {
          PositionalLinesStep(argDescriptions, idx, start, text);
          text := text + (NatToString(idx) + " - " + argDescriptions[idx] + "\n");
          idx := idx + 1;
        }
        assert argDescriptions[..idx] == argDescriptions;
        Concat3(before, "\nPositional args:\n", PositionalLines(argDescriptions, 0));
      } else {
        assert before + PositionalSection(Model()) == before;
      }
    }

    /** The `Flags` part of `help`, present only when the command has flags. */
    method AppendFlags(before: string) returns (text: string)
      ensures text == before + FlagSection(Model())
    {
      ghost var c := Model();
      text := before;
      if |flags| > 0 {
        text := text + "\nFlags:\n";
        ghost var start := text;
        var j := 0;
        while j < |flags|
          invariant j <= |flags|
          invariant text == start + FlagLines(c.flags[..j])
        {
          var flag := flags[j];
          FlagLinesStep(c.flags, j, start, text);
          if flag.required {
            text := text + (flag.name + " - " + flag.description + " (required)\n");
          } else {
            text := text + (flag.name + " - " + flag.description + "\n");
          }
          j := j + 1;
        }
        assert c.flags[..j] == c.flags;
        Concat3(before, "\nFlags:\n", FlagLines(c.flags));
      } else {
        assert before + FlagSection(c) == before;
      }
      CommandModelUnchanged(this);
    }
  }

  /** Every flag object reachable from a list of commands. */
  ghost function FlagsOf(cs: seq<Command>): set<Flag>
    reads cs
  {
    set c, f | c in cs && f in c.flags :: f
  }

  /** The snapshots of a list of commands, in order. */
  function CommandModels(cs: seq<Command>): (r: seq<CommandSpec>)
    reads cs, FlagsOf(cs)
    ensures |r| == |cs|
  {
    if cs == [] then []
    else
      assert cs[0] in cs;
      assert forall f :: f in cs[0].flags ==> f in FlagsOf(cs);
      assert FlagsOf(cs[1..]) <= FlagsOf(cs);
      [cs[0].Model()] + CommandModels(cs[1..])
  }

  /** Entry `i` of the snapshot is the snapshot of command `i`. */
  lemma {:induction false} CommandModelsAt(cs: seq<Command>, i: nat)
    requires i < |cs|
    ensures CommandModels(cs)[i] == cs[i].Model()
    decreases i
  {
    if i > 0 {
      CommandModelsAt(cs[1..], i - 1);
      assert cs[1..][i - 1] == cs[i];
    }
  }

  /**
   * The names read straight off the command objects, as `find` reads
   * `command.name`; `HandleNamed` searches these rather than building every
   * command's snapshot, and `CommandNamesOfModels` ties them to
   * `Schema.CommandNames` of the snapshots.
   */
  function CommandNamesOf(cs: seq<Command>): (r: seq<string>)
    reads cs
    ensures |r| == |cs| && forall i :: 0 <= i < |cs| ==> r[i] == cs[i].name
  {
    if cs == [] then [] else [cs[0].name] + CommandNamesOf(cs[1..])
  }

  /** A command whose objects were not written to has the same snapshot. */
  twostate lemma CommandModelUnchanged(c: Command)
    requires unchanged(c) && unchanged(old(c.flags))
    ensures c.Model() == old(c.Model())
  {
  }

  /** A parser whose objects were not written to has the same snapshot. */
  twostate lemma ModelUnchanged(a: Argparse)
    requires unchanged(a) && unchanged(old(a.commands)) && unchanged(old(FlagsOf(a.commands)))
    ensures a.Model() == old(a.Model())
  {
  }

  /** The names read off the objects are the names in their snapshots. */
  lemma {:induction false} CommandNamesOfModels(cs: seq<Command>)
    ensures CommandNamesOf(cs) == CommandNames(CommandModels(cs))
  {
    if cs != [] {
      CommandNamesOfModels(cs[1..]);
    }
  }

  /** The imperative outcome agrees with the specification's, the command index becoming the object. */
  predicate Realizes(o: Outcome<Command>, spec: Outcome<nat>, cs: seq<Command>) {
    match spec
    case ShowHelp(t) => o == ShowHelp(t)
    case Invoke(k, ps, fm) => k < |cs| && o == Invoke(cs[k], ps, fm)
  }

  /** The same, for the outcome of one command: index `k` becomes the object `command`. */
  predicate RealizesFor(o: Outcome<Command>, spec: Outcome<nat>, command: Command) {
    match spec
    case ShowHelp(t) => o == ShowHelp(t)
    case Invoke(_, ps, fm) => o == Invoke(command, ps, fm)
  }

  /** The classification `forEach`: numbers and strings not starting with `-` are positional. */
  method Classify(args: seq<Token>) returns (flags: seq<Marker>, params: seq<Marker>)
    ensures flags == FlagMarkers(args) && params == PositionalMarkers(args)
  {
    flags, params := [], [];
    var idx := 0;
    while idx < |args|
      invariant idx <= |args|
      invariant flags == Markers(args, idx, true) && params == Markers(args, idx, false)
    {
      var arg := args[idx];
      var marker := Marker(Text(arg), idx);
      if arg.Num? {
        params := params + [marker];
      } else if "-" <= arg.s {
        flags := flags + [marker];
      } else {
        params := params + [marker];
      }
      idx := idx + 1;
    }
  }

  /** The loop looking for `"--help"` or `"-h"` among all raw tokens. */
  method ScanForHelp(args: seq<Token>) returns (found: bool)
    ensures found == HelpRequested(args)
  {
    var i := 0;
    while i < |args|
      invariant i <= |args|
      invariant forall j :: 0 <= j < i ==> !IsHelpToken(args[j])
    {
      if args[i] in [Str("--help"), Str("-h")] {
        return true;
      }
      i := i + 1;
    }
    return false;
  }

  /** The lookup of one declared flag among the flag markers: its name, then the alias loop. */
  method FindInputFlag(ms: seq<Marker>, flag: Flag) returns (inputFlag: Option<Marker>)
    ensures inputFlag == LookupFlag(ms, flag.Model())
  {
    inputFlag := FindMarker(ms, flag.name);
    if inputFlag.None? {
      var i := 0;
      while i < |flag.aliases| - 1
        invariant inputFlag.Some? ==> inputFlag.value in ms
        invariant AliasLookup(ms, flag.aliases, i, inputFlag) == AliasLookup(ms, flag.aliases, 0, None)
        decreases |flag.aliases| - i
      {
        var alias := flag.aliases[i];
        inputFlag := FindMarker(ms, alias);
        if AliasBreak(inputFlag) {
          break;
        }
        i := i + 1;
      }
    }
  }

  /** The greedy loop taking a flag's arguments from `start` on, recording every index it takes. */
  method ConsumeFlagArgs(args: seq<Token>, start: nat, expected: int, usedBefore: seq<nat>)
    returns (foundArgs: seq<Token>, usedIndices: seq<nat>, allFound: bool)
    requires start <= |args|
    ensures var t := TakeArgs(args, start, expected);
      foundArgs == t.values && usedIndices == usedBefore + t.indices && allFound == t.allFound
  {
    var i := start;
    allFound := false;
    foundArgs := [];
    usedIndices := usedBefore;
    while i <= |args| - 1
      invariant start <= i <= |args|
      invariant foundArgs == args[start..i] && usedIndices == usedBefore + Range(start, i)
      invariant expected <= 0 || i - start < expected
    {
      assert args[start..i + 1] == args[start..i] + [args[i]];
      foundArgs := foundArgs + [args[i]];
      usedIndices := usedIndices + [i];
      if |foundArgs| == expected {
        allFound := true;
        break;
      }
      i := i + 1;
    }
  }

  /**
   * One pass of the `for (const flag of command.flags)` loop of `handle`;
   * `Failed` stands for its early `return command.help()`.
   */
  method ResolveOne(args: seq<Token>, ms: seq<Marker>, flag: Flag, inputFlags: FlagMap, usedBefore: seq<nat>)
    returns (stage: FlagStage)
    requires MarkersWithin(ms, |args|)
    ensures stage == Step(args, ms, flag.Model(), inputFlags, usedBefore)
  {
    var inputFlag := FindInputFlag(ms, flag);
    if inputFlag.None? {
      if flag.required {
        return Failed;
      }
      return Resolved(inputFlags, usedBefore);
    }
    var foundArgs, usedIndices, allFound := ConsumeFlagArgs(args, inputFlag.value.idx + 1, flag.expectedArgs, usedBefore);
    if flag.expectedArgs != 0 && !allFound {
      return Failed;
    }
    return Resolved(Put(inputFlags, flag.name, foundArgs), usedIndices);
  }

  /** The flag loop of `handle` over the command's declared flags, stopping at the first failure. */
  method ResolveFlags(args: seq<Token>, ms: seq<Marker>, command: Command) returns (stage: FlagStage)
    requires MarkersWithin(ms, |args|)
    ensures stage == ResolveAll(args, ms, command.Model().flags)
  {
    ghost var fs := command.Model().flags;
    stage := Resolved([], []);
    var j := 0;
    while j < |command.flags|
      invariant j <= |command.flags| == |fs| && stage.Resolved?
      invariant ResolveFrom(args, ms, fs, j, stage.flags, stage.used) == ResolveAll(args, ms, fs)
    {
      assert fs[j] == command.flags[j].Model();
      stage := ResolveOne(args, ms, command.flags[j], stage.flags, stage.used);
      if stage.Failed? {
        return;
      }
      j := j + 1;
    }
  }

  /** The `passedArgs` loop: every token except index 0 and the used indices, in order. */
  method CollectPassed(args: seq<Token>, usedIndices: seq<nat>) returns (passedArgs: seq<Token>)
    ensures passedArgs == PassedUpTo(args, usedIndices, |args|)
  {
    passedArgs := [];
    var idx := 0;
    while idx < |args|
      invariant idx <= |args|
      invariant passedArgs == PassedUpTo(args, usedIndices, idx)
    {
      if idx != 0 && idx !in usedIndices {
        passedArgs := passedArgs + [args[idx]];
      }
      idx := idx + 1;
    }
  }

  class Argparse {
    var name: string
    var version: Version
    var commands: seq<Command>

    constructor (name: string)
      ensures this.name == name && version == DefaultVersion && commands == []
    {
      this.name := name;
      version := DefaultVersion;
      commands := [];
    }

    function Model(): ParserSpec
      reads this, commands, FlagsOf(commands)
    {
      ParserSpec(name, version, CommandModels(commands))
    }

    /** `getVersion`: `major.minor.patch`, which reads back as the version. */
    function GetVersion(): (s: string)
      reads this
      ensures ParseVersion(s) == Some(version)
    {
      VersionRoundTrip(version);
      VersionText(version)
    }

    method AddCommand(command: Command) returns (self: Argparse)
      modifies this
      ensures self == this && name == old(name) && version == old(version)
      ensures commands == old(commands) + [command]
    {
      commands := commands + [command];
      self := this;
    }

    /** `help`: the parser help, one line per registered command. */
    method Help() returns (helpText: string)
      ensures helpText == ParserHelpText(Model())
    {
      ghost var p := Model();
      helpText := "\nCli " + GetVersion() + "\n\nCommands:\n";
      ghost var banner := helpText;
      var commandCount := |commands|;
      var idx := 0;
      while idx < |commands|
        invariant idx <= |commands| == |p.commands|
        invariant helpText == banner + CommandLines(p.commands[..idx])
      {
        var command := commands[idx];
        ModelUnchanged(this);
        CommandModelsAt(commands, idx);
        CommandLinesStep(p.commands, idx, banner, helpText);
        helpText := helpText + (command.name + " - " + command.description);
        if idx < commandCount {
          helpText := helpText + "\n";
        }
        idx := idx + 1;
      }
      assert p.commands[..idx] == p.commands;
      ModelUnchanged(this);
    }

    /** `handle`: the parse-and-dispatch pipeline on raw tokens. */
    method Handle(args: seq<Token>) returns (o: Outcome<Command>)
      ensures Realizes(o, HandleSpec(old(Model()), args), old(commands))
    {
      var flags, params := Classify(args);
      if |params| < 1 {
        HandleSpecNoCommand(old(Model()), args);
        var text := Help();
        ModelUnchanged(this);
        return ShowHelp(text);
      }
      ModelUnchanged(this);
      o := HandleNamed(args, flags, params);
    }

    /** The part of `handle` that looks up the command named by the first positional token. */
    method HandleNamed(args: seq<Token>, flags: seq<Marker>, params: seq<Marker>) returns (o: Outcome<Command>)
      requires flags == FlagMarkers(args) && params == PositionalMarkers(args) && |params| >= 1
      ensures Realizes(o, HandleSpec(old(Model()), args), old(commands))
    {
      ghost var p := Model();
      var found := FirstIndexOf(CommandNamesOf(commands), params[0].name);
      CommandNamesOfModels(commands);
      if found.None? {
        HandleSpecNoCommand(p, args);
        var text := Help();
        ModelUnchanged(this);
        return ShowHelp(text);
      }
      HandleSpecCommand(p, args, found.value);
      var command := commands[found.value];
      CommandModelsAt(commands, found.value);
      o := HandleCommand(args, flags, command, found.value);
    }
  }

  /** The part of `handle` after the command is found: help, flags, positional count, dispatch. */
  method HandleCommand(args: seq<Token>, flags: seq<Marker>, command: Command, ghost k: nat) returns (o: Outcome<Command>)
    requires flags == FlagMarkers(args)
    ensures RealizesFor(o, CommandOutcome(old(command.Model()), k, args), command)
  {
    var helpAsked := ScanForHelp(args);
    if helpAsked {
      var text := command.Help();
      CommandModelUnchanged(command);
      return ShowHelp(text);
    }
    var stage := ResolveFlags(args, flags, command);
    CommandModelUnchanged(command);
    if stage.Failed? {
      var text := command.Help();
      CommandModelUnchanged(command);
      return ShowHelp(text);
    }
    var passedArgs := CollectPassed(args, stage.used);
    if |passedArgs| != command.expectedArgs {
      var text := command.Help();
      CommandModelUnchanged(command);
      return ShowHelp(text);
    }
    return Invoke(command, passedArgs, stage.flags);
  }
}
