/**
 * The parser that `dev/Cli.js` builds (four commands, `gather-info` with
 * two required one-argument flags) and what `handle` answers to a few
 * invocations of it.
 */
module CliExample {
  import opened Tokens
  import opened Schema
  import opened Help
  import opened Dispatch
  import opened LookupFacts
  import opened ResolveFacts
  import opened DispatchFacts

  const Host := FlagSpec("--host", "The hostname to connect to", 1, [], true)
  const Port := FlagSpec("--port", "The port to read/write data on", 1, [], true)

  const Ping := CommandSpec("ping", "A test command", 0, [], [], [])
  const GatherInfo := CommandSpec("gather-info", "Gather info on a given host", 2, [], [Host, Port], [])
  const Scan := CommandSpec("scan", "Scan a host", 1, ["The host to scan."], [], [])
  const ScanAll := CommandSpec("scan-all", "Scan all hosts connected to the current host", 0, [], [], [])

  const Cli := ParserSpec("test", DefaultVersion, [Ping, GatherInfo, Scan, ScanAll])

  /** The flags of a command declaring two one-argument flags, `n1` then `n2`. */
  predicate TwoUnaryFlags(c: CommandSpec, n1: string, n2: string) {
    |c.flags| == 2 && n1 != n2
    && c.flags[0].name == n1 && c.flags[0].expectedArgs == 1
    && c.flags[1].name == n2 && c.flags[1].expectedArgs == 1
  }

  /** None of the tokens is `--help` or `-h`. */
  predicate NoHelpToken(args: seq<Token>) {
    forall i :: 0 <= i < |args| ==> !IsHelpToken(args[i])
  }

  /** The input ends with `n1 v1 n2 v2`, the flag `n1` at index `at`. */
  predicate EndsWithTwoFlags(args: seq<Token>, at: nat, n1: string, v1: Token, n2: string, v2: Token) {
    |args| == at + 4 && args[at] == Str(n1) && args[at + 1] == v1 && args[at + 2] == Str(n2) && args[at + 3] == v2
  }

  /** The first pass takes `v1` for `n1`. */
  lemma FirstFlagPass(args: seq<Token>, at: nat, c: CommandSpec, n1: string, v1: Token, n2: string, v2: Token, ms: seq<Marker>)
    requires TwoUnaryFlags(c, n1, n2) && EndsWithTwoFlags(args, at, n1, v1, n2, v2)
    requires ms == [Marker(n1, at), Marker(n2, at + 2)]
    ensures MarkersWithin(ms, |args|) && Step(args, ms, c.flags[0], [], []) == Resolved([(n1, [v1])], [at + 1])
  {
    assert MarkersWithin(ms, |args|);
    StepTakesOne(args, ms, c.flags[0], [], [], 0);
    assert Put([], n1, [v1]) == [(n1, [v1])] && [] + [at + 1] == [at + 1];
  }

  /** The second pass takes `v2` for `n2`, after the first. */
  lemma SecondFlagPass(args: seq<Token>, at: nat, c: CommandSpec, n1: string, v1: Token, n2: string, v2: Token, ms: seq<Marker>)
    requires TwoUnaryFlags(c, n1, n2) && EndsWithTwoFlags(args, at, n1, v1, n2, v2)
    requires ms == [Marker(n1, at), Marker(n2, at + 2)] && MarkersWithin(ms, |args|)
    ensures Step(args, ms, c.flags[1], [(n1, [v1])], [at + 1]) == Resolved([(n1, [v1]), (n2, [v2])], [at + 1, at + 3])
  {
    StepTakesOne(args, ms, c.flags[1], [(n1, [v1])], [at + 1], 1);
    PutSecond(n1, [v1], n2, [v2]);
  }

  /** `n1 v1 n2 v2` at the end of the input fills both flags and marks the two value indices used. */
  lemma TwoFlagsResolved(args: seq<Token>, at: nat, c: CommandSpec, n1: string, v1: Token, n2: string, v2: Token)
    requires TwoUnaryFlags(c, n1, n2) && EndsWithTwoFlags(args, at, n1, v1, n2, v2)
    ensures ResolveAll(args, [Marker(n1, at), Marker(n2, at + 2)], c.flags)
      == Resolved([(n1, [v1]), (n2, [v2])], [at + 1, at + 3])
  {
    var ms := [Marker(n1, at), Marker(n2, at + 2)];
    FirstFlagPass(args, at, c, n1, v1, n2, v2, ms);
    SecondFlagPass(args, at, c, n1, v1, n2, v2, ms);
    TwoPasses(args, ms, c.flags, [(n1, [v1])], [at + 1], Resolved([(n1, [v1]), (n2, [v2])], [at + 1, at + 3]));
  }

  /**
   * With its two flags filled, the command runs exactly when the tokens
   * left over (flag tokens included) are as many as it declares.
   */
  lemma TwoFlagsOutcome(args: seq<Token>, at: nat, c: CommandSpec, k: nat, n1: string, v1: Token, n2: string, v2: Token)
    requires TwoUnaryFlags(c, n1, n2) && EndsWithTwoFlags(args, at, n1, v1, n2, v2)
    requires FlagMarkers(args) == [Marker(n1, at), Marker(n2, at + 2)] && NoHelpToken(args)
    ensures var passed := PassedUpTo(args, [at + 1, at + 3], |args|);
      CommandOutcome(c, k, args) ==
        if |passed| == c.expectedArgs then Invoke(k, passed, [(n1, [v1]), (n2, [v2])])
        else ShowHelp(CommandHelpText(c))
  {
    TwoFlagsResolved(args, at, c, n1, v1, n2, v2);
  }

  /** `gather-info` declares `--host` then `--port`, each taking one token, and two positional arguments. */
  lemma GatherInfoShape(c: CommandSpec)
    requires c == GatherInfo
    ensures TwoUnaryFlags(c, "--host", "--port") && c.expectedArgs == 2
  {
    assert Host.name[2] != Port.name[2];
  }

  /**
   * What the examples below depend on: the command names in registration
   * order, the two flags of `gather-info` (the second one required and
   * without aliases), and the arities of `gather-info` and `scan`. The examples are stated for any parser of this shape, so
   * that the long help texts of `Cli` are never expanded in their proofs.
   */
  predicate CliLike(p: ParserSpec) {
    |p.commands| == 4
    && p.commands[0].name == "ping" && p.commands[1].name == "gather-info"
    && p.commands[2].name == "scan" && p.commands[3].name == "scan-all"
    && TwoUnaryFlags(p.commands[1], "--host", "--port") && p.commands[1].expectedArgs == 2
    && p.commands[1].flags[1].required && p.commands[1].flags[1].aliases == []
    && p.commands[2].flags == [] && p.commands[2].expectedArgs == 1
  }

  lemma CliIsCliLike()
    ensures CliLike(Cli)
  {
    GatherInfoShape(GatherInfo);
  }

  /** An input whose first token is `gather-info` is handled by the second registered command. */
  lemma GatherInfoSelected(p: ParserSpec, args: seq<Token>)
    requires CliLike(p) && NamesCommandAt(args, 0) && args[0] == Str("gather-info")
    ensures HandleSpec(p, args) == CommandOutcome(p.commands[1], 1, args)
  {
    assert "ping"[0] != "gather-info"[0];
    FirstMatchingCommandWins(p, args, 0, 1);
  }

  /** `gather-info --host h --port 5`. */
  const FlagsCall := [Str("gather-info"), Str("--host"), Str("h"), Str("--port"), Num(5)]

  lemma FlagsCallMarkers(args: seq<Token>)
    requires args == FlagsCall
    ensures FlagMarkers(args) == [Marker("--host", 1), Marker("--port", 3)]
    ensures NamesCommandAt(args, 0) && NoHelpToken(args)
    ensures PassedUpTo(args, [2, 4], 5) == [Str("--host"), Str("--port")]
  {
    assert !IsFlagToken(args[0]) by { assert args[0].s[0] == 'g'; }
    assert !IsFlagToken(args[2]) by { assert args[2].s[0] == 'h'; }
    assert IsFlagToken(args[1]) && IsFlagToken(args[3]);
    assert Markers(args, 2, true) == [Marker("--host", 1)];
    assert Markers(args, 4, true) == [Marker("--host", 1), Marker("--port", 3)];
    forall i | 0 <= i < |args| ensures !IsHelpToken(args[i]) {
      assert i == 0 || i == 1 || i == 2 || i == 3 || i == 4;
    }
    assert PassedUpTo(args, [2, 4], 1) == [];
    assert PassedUpTo(args, [2, 4], 3) == [Str("--host")];
  }

  /** `gather-info --host h --port 5` runs `gather-info`; the flag tokens themselves become its two positional arguments. */
  lemma GatherInfoWithFlags(p: ParserSpec, args: seq<Token>)
    requires CliLike(p) && args == FlagsCall
    ensures HandleSpec(p, args) == Invoke(1, [Str("--host"), Str("--port")], [("--host", [Str("h")]), ("--port", [Num(5)])])
  {
    FlagsCallMarkers(args);
    GatherInfoSelected(p, args);
    TwoFlagsOutcome(args, 1, p.commands[1], 1, "--host", Str("h"), "--port", Num(5));
  }

  /** `gather-info hostA 5 --host hostA --port 5`. */
  const ExtraCall := [Str("gather-info"), Str("hostA"), Num(5), Str("--host"), Str("hostA"), Str("--port"), Num(5)]

  lemma ExtraCallPassed(args: seq<Token>)
    requires args == ExtraCall
    ensures |PassedUpTo(args, [4, 6], 7)| == 4
  {
    assert |PassedUpTo(args, [4, 6], 1)| == 0;
    assert |PassedUpTo(args, [4, 6], 4)| == 3;
  }

  lemma ExtraCallMarkers(args: seq<Token>)
    requires args == ExtraCall
    ensures FlagMarkers(args) == [Marker("--host", 3), Marker("--port", 5)]
    ensures NamesCommandAt(args, 0) && NoHelpToken(args)
  {
    assert !IsFlagToken(args[0]) by { assert args[0].s[0] == 'g'; }
    assert !IsFlagToken(args[1]) && !IsFlagToken(args[4]) by { assert args[1].s[0] == 'h'; }
    assert !IsFlagToken(args[2]) && !IsFlagToken(args[6]);
    assert IsFlagToken(args[3]) && IsFlagToken(args[5]);
    assert Markers(args, 3, true) == [];
    assert Markers(args, 4, true) == [Marker("--host", 3)];
    assert Markers(args, 6, true) == [Marker("--host", 3), Marker("--port", 5)];
    forall i | 0 <= i < |args| ensures !IsHelpToken(args[i]) {
      assert i == 0 || i == 1 || i == 2 || i == 3 || i == 4 || i == 5 || i == 6;
    }
  }

  /**
   * `gather-info hostA 5 --host hostA --port 5` leaves four positional
   * tokens (`hostA`, `5`, `--host`, `--port`) where two are declared, so
   * the answer is the command's help.
   */
  lemma GatherInfoWithExtraPositionals(p: ParserSpec, args: seq<Token>)
    requires CliLike(p) && args == ExtraCall
    ensures HandleSpec(p, args) == ShowHelp(CommandHelpText(p.commands[1]))
  {
    ExtraCallMarkers(args);
    ExtraCallPassed(args);
    GatherInfoSelected(p, args);
    TwoFlagsOutcome(args, 3, p.commands[1], 1, "--host", Str("hostA"), "--port", Num(5));
  }

  /** With nothing used, every token after the command name is passed. */
  lemma {:induction false} PassedNoneUsed(args: seq<Token>, n: nat)
    requires 1 <= n <= |args|
    ensures PassedUpTo(args, [], n) == args[1..n]
  {
    if n > 1 {
      PassedNoneUsed(args, n - 1);
      assert args[1..n] == args[1..n - 1] + [args[n - 1]];
    }
  }

  /** A command without flags, given no help token, runs with every token after its name exactly when their count is its arity. */
  lemma FlaglessOutcome(c: CommandSpec, k: nat, args: seq<Token>)
    requires c.flags == [] && |args| >= 1 && NoHelpToken(args)
    ensures CommandOutcome(c, k, args) ==
      if |args| - 1 == c.expectedArgs then Invoke(k, args[1..], []) else ShowHelp(CommandHelpText(c))
  {
    PassedNoneUsed(args, |args|);
  }

  /** `scan n00dles`. */
  const ScanCall := [Str("scan"), Str("n00dles")]

  lemma ScanCallShape(args: seq<Token>)
    requires args == ScanCall
    ensures NamesCommandAt(args, 0) && NoHelpToken(args) && Text(args[0]) == "scan"
  {
    assert !IsFlagToken(args[0]) by { assert args[0].s[0] == 's'; }
    assert args[0].s[0] != '-' && args[1].s[0] != '-';
  }

  /** `scan n00dles` runs `scan` with its one positional argument and no flags. */
  lemma ScanOneHost(p: ParserSpec, args: seq<Token>)
    requires CliLike(p) && args == ScanCall
    ensures HandleSpec(p, args) == Invoke(2, [Str("n00dles")], [])
  {
    ScanCallShape(args);
    assert "ping"[0] != "scan"[0] && "gather-info"[0] != "scan"[0];
    FirstMatchingCommandWins(p, args, 0, 2);
    FlaglessOutcome(p.commands[2], 2, args);
  }

  /** `gather-info a b --host h` lacks the required `--port`: the answer is the command's help. */
  lemma GatherInfoWithoutPort(p: ParserSpec, args: seq<Token>)
    requires CliLike(p)
    requires args == [Str("gather-info"), Str("a"), Str("b"), Str("--host"), Str("h")]
    ensures HandleSpec(p, args) == ShowHelp(CommandHelpText(p.commands[1]))
  {
    var c := p.commands[1];
    assert !IsFlagToken(args[0]) by { assert args[0].s[0] == 'g'; }
    GatherInfoSelected(p, args);
    var ms := FlagMarkers(args);
    forall k | 0 <= k < |ms| ensures ms[k].name != "--port" {
      MarkerMembership(args, |args|, true, ms[k]);
      var x := ms[k].idx;
      assert x == 0 || x == 1 || x == 2 || x == 3 || x == 4;
    }
    FewAliasesNeverMatch(ms, c.flags[1]);
    MissingRequiredFlag(c, 1, args, 1);
  }

  /** An input whose first positional token names no command gets the parser help. */
  lemma UnknownCommand(p: ParserSpec, args: seq<Token>)
    requires CliLike(p) && args == [Str("--verbose"), Str("hack")]
    ensures HandleSpec(p, args) == ShowHelp(ParserHelpText(p))
  {
    assert IsFlagToken(args[0]);
    assert !IsFlagToken(args[1]) by { assert args[1].s[0] == 'h'; }
    forall k | 0 <= k < |p.commands| ensures p.commands[k].name != Text(args[1]) {
      assert p.commands[k].name[0] != 'h';
    }
    UnknownCommandGivesParserHelp(p, args, 1);
  }

  /** The parser built in `dev/Cli.js` answers the invocations above as stated. */
  lemma CliAnswers(p: ParserSpec)
    requires p == Cli
    ensures HandleSpec(p, FlagsCall) == Invoke(1, [Str("--host"), Str("--port")], [("--host", [Str("h")]), ("--port", [Num(5)])])
    ensures HandleSpec(p, ExtraCall) == ShowHelp(CommandHelpText(GatherInfo))
    ensures HandleSpec(p, ScanCall) == Invoke(2, [Str("n00dles")], [])
    ensures HandleSpec(p, [Str("gather-info"), Str("a"), Str("b"), Str("--host"), Str("h")]) == ShowHelp(CommandHelpText(GatherInfo))
    ensures HandleSpec(p, [Str("--verbose"), Str("hack")]) == ShowHelp(ParserHelpText(p))
  {
    CliIsCliLike();
    GatherInfoWithFlags(p, FlagsCall);
    GatherInfoWithExtraPositionals(p, ExtraCall);
    ScanOneHost(p, ScanCall);
    GatherInfoWithoutPort(p, [Str("gather-info"), Str("a"), Str("b"), Str("--host"), Str("h")]);
    UnknownCommand(p, [Str("--verbose"), Str("hack")]);
  }
}
