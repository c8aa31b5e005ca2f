/**
 * Properties of the whole of `handle` on a schema snapshot: when it
 * dispatches, what the handler then receives, and that every other answer
 * is one of the help texts.
 */
module DispatchFacts {
  import opened Tokens
  import opened Schema
  import opened Help
  import opened Dispatch
  import opened ResolveFacts

  /** The flag loop succeeds and leaves exactly `c.expectedArgs` positional tokens. */
  predicate ArityMatches(c: CommandSpec, args: seq<Token>) {
    match ResolveAll(args, FlagMarkers(args), c.flags)
    case Failed => false
    case Resolved(_, used) => |PassedUpTo(args, used, |args|)| == c.expectedArgs
  }

  /**
   * A named command is invoked exactly when no help token is present, no
   * declared flag fails, and the positional count is the declared one.
   */
  lemma CommandInvokeIff(c: CommandSpec, k: nat, args: seq<Token>)
    ensures CommandOutcome(c, k, args).Invoke? <==>
      !HelpRequested(args)
      && (forall i :: 0 <= i < |c.flags| ==> !FlagFails(args, FlagMarkers(args), c.flags[i]))
      && ArityMatches(c, args)
  {
    ResolveAllFails(args, FlagMarkers(args), c.flags);
  }

  /** Otherwise the answer is that command's help, never a partial dispatch. */
  lemma CommandHelpOtherwise(c: CommandSpec, k: nat, args: seq<Token>)
    ensures CommandOutcome(c, k, args).ShowHelp? ==> CommandOutcome(c, k, args) == ShowHelp(CommandHelpText(c))
  {
  }

  /**
   * What the handler receives: the command found, exactly `expectedArgs`
   * positional tokens, and a flag map without repeated names whose names
   * are those of the declared flags that matched a marker.
   */
  lemma InvokeArguments(c: CommandSpec, k: nat, args: seq<Token>)
    requires CommandOutcome(c, k, args).Invoke?
    ensures var o := CommandOutcome(c, k, args);
      o.command == k && |o.params| == c.expectedArgs && UniqueKeys(o.flags)
      && forall name :: name in Keys(o.flags) <==> MatchedFrom(FlagMarkers(args), c.flags, 0, name)
  {
    var ms := FlagMarkers(args);
    ResolveAllUniqueKeys(args, ms, c.flags);
    forall name | true ensures name in Keys(CommandOutcome(c, k, args).flags) <==> MatchedFrom(ms, c.flags, 0, name) {
      ResolveAllKeys(args, ms, c.flags, name);
    }
  }

  /** A required flag that matches no marker gives the command's help. */
  lemma MissingRequiredFlag(c: CommandSpec, k: nat, args: seq<Token>, i: nat)
    requires i < |c.flags| && c.flags[i].required && LookupFlag(FlagMarkers(args), c.flags[i]).None?
    ensures CommandOutcome(c, k, args) == ShowHelp(CommandHelpText(c))
  {
    ResolveAllFails(args, FlagMarkers(args), c.flags);
    assert FlagFails(args, FlagMarkers(args), c.flags[i]);
  }

  /** A flag with positive arity followed by fewer tokens than that gives the command's help. */
  lemma TooFewFlagArguments(c: CommandSpec, k: nat, args: seq<Token>, i: nat)
    requires i < |c.flags| && c.flags[i].expectedArgs > 0
    requires LookupFlag(FlagMarkers(args), c.flags[i]).Some?
    requires LookupFlag(FlagMarkers(args), c.flags[i]).value.idx + c.flags[i].expectedArgs >= |args|
    ensures CommandOutcome(c, k, args) == ShowHelp(CommandHelpText(c))
  {
    var ms := FlagMarkers(args);
    assert LookupFlag(ms, c.flags[i]).value in ms;
    ResolveAllFails(args, ms, c.flags);
    assert FlagFails(args, ms, c.flags[i]);
  }

  /**
   * Every answer of `handle` is the parser help, a registered command's
   * help, or the invocation of the first command registered under the
   * first positional token's name.
   */
  lemma HandleAnswers(p: ParserSpec, args: seq<Token>)
    ensures match HandleSpec(p, args)
      case ShowHelp(t) =>
        t == ParserHelpText(p) || exists k :: 0 <= k < |p.commands| && t == CommandHelpText(p.commands[k])
      case Invoke(k, ps, _) =>
        |PositionalMarkers(args)| >= 1 && k < |p.commands|
        && FirstIndexOf(CommandNames(p.commands), PositionalMarkers(args)[0].name) == Some(k)
        && |ps| == p.commands[k].expectedArgs
  {
    var params := PositionalMarkers(args);
    if |params| >= 1 {
      match FirstIndexOf(CommandNames(p.commands), params[0].name)
      case None =>
      case Some(k) =>
        HandleSpecCommand(p, args, k);
    }
  }
}
