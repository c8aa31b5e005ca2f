/**
 * What `Argparse.handle` computes, written as functions over the schema
 * snapshot and the raw tokens. Each function follows one loop or one
 * lookup of the source, quirks included:
 *  - the alias loop never breaks early and stops before the last alias;
 *  - a flag's arguments are taken greedily, whatever their own class, and
 *    a zero-arity flag takes every token after it;
 *  - a flag token is not marked used by its own flag; unless another
 *    flag's argument loop takes it, it stays positional.
 */
module Dispatch {
  import opened Tokens
  import opened Schema
  import opened Help
  import Js

  /** A token's text with its position in the raw input. */
  datatype Marker = Marker(name: string, idx: nat)

  /**
   * Result of a parse: help text (every usage error is reported this way)
   * or the command to run, with its positional arguments and flag map.
   * The command is an index into the schema here, a Command object in the
   * imperative model.
   */
  datatype Outcome<C> = ShowHelp(text: string) | Invoke(command: C, params: seq<Token>, flags: FlagMap)

  /** Every marker points before `n`. */
  predicate MarkersWithin(ms: seq<Marker>, n: nat) {
    forall m :: m in ms ==> m.idx < n
  }

  /**
   * The markers of `args[..n]` on one side of the classification: flag
   * markers when `flagSide`, positional markers otherwise, in input order.
   */
  function Markers(args: seq<Token>, n: nat, flagSide: bool): (r: seq<Marker>)
    requires n <= |args|
    ensures |r| <= n && MarkersWithin(r, n)
  {
    if n == 0 then []
    else
      var last := if IsFlagToken(args[n - 1]) == flagSide then [Marker(Text(args[n - 1]), n - 1)] else [];
      Markers(args, n - 1, flagSide) + last
  }

  function FlagMarkers(args: seq<Token>): seq<Marker> {
    Markers(args, |args|, true)
  }

  function PositionalMarkers(args: seq<Token>): seq<Marker> {
    Markers(args, |args|, false)
  }

  function MarkerNames(ms: seq<Marker>): (r: seq<string>)
    ensures |r| == |ms| && forall k :: 0 <= k < |ms| ==> r[k] == ms[k].name
  {
    if ms == [] then [] else [ms[0].name] + MarkerNames(ms[1..])
  }

  /** `flags.find(marker => marker.name === name)`. */
  function FindMarker(ms: seq<Marker>, name: string): (r: Option<Marker>)
    ensures r.Some? ==> r.value in ms && r.value.name == name
    ensures r.None? <==> forall k :: 0 <= k < |ms| ==> ms[k].name != name
  {
    match FirstIndexOf(MarkerNames(ms), name)
    case None => None
    case Some(k) => Some(ms[k])
  }

  /**
   * The alias loop's break test `!inputFlag === undefined || !inputFlag === null`:
   * `!inputFlag` is a boolean, which is never strictly equal to `undefined` or `null`.
   */
  function AliasBreak(found: Option<Marker>): (b: bool)
    ensures !b
  {
    Js.StrictEquals(Js.Not(found.Some?), Js.Undefined) || Js.StrictEquals(Js.Not(found.Some?), Js.Null)
  }

  /**
   * The alias `while` loop from iteration `i` on, with `cur` the current
   * value of `inputFlag`: every pass overwrites it, and the loop stops
   * before the last alias.
   */
  function AliasLookup(ms: seq<Marker>, aliases: seq<string>, i: nat, cur: Option<Marker>): (r: Option<Marker>)
    requires cur.Some? ==> cur.value in ms
    ensures r.Some? ==> r.value in ms
    decreases |aliases| - i
  {
    if i < |aliases| - 1 then
      var found := FindMarker(ms, aliases[i]);
      if AliasBreak(found) then found else AliasLookup(ms, aliases, i + 1, found)
    else cur
  }

  /** The marker a declared flag resolves to: by canonical name, else by the alias loop. */
  function LookupFlag(ms: seq<Marker>, f: FlagSpec): (r: Option<Marker>)
    ensures r.Some? ==> r.value in ms
  {
    match FindMarker(ms, f.name)
    case Some(m) => Some(m)
    case None => AliasLookup(ms, f.aliases, 0, None)
  }

  function Range(lo: nat, hi: nat): (r: seq<nat>)
    requires lo <= hi
    ensures |r| == hi - lo && forall k :: 0 <= k < |r| ==> r[k] == lo + k
    decreases hi - lo
  {
    if lo == hi then [] else Range(lo, hi - 1) + [hi - 1]
  }

  /** The tokens a flag consumed, the indices it marked used, and whether `allFound` was set. */
  datatype Taken = Taken(values: seq<Token>, indices: seq<nat>, allFound: bool)

  /**
   * The consumption loop started at `start`: it stops as soon as
   * `expected` tokens are taken, so with `expected <= 0`, or too few tokens
   * left, it takes everything up to the end of the input.
   */
  function TakeArgs(args: seq<Token>, start: nat, expected: int): Taken
    requires start <= |args|
  {
    if 0 < expected && start + expected <= |args| then
      Taken(args[start..start + expected], Range(start, start + expected), true)
    else
      Taken(args[start..], Range(start, |args|), false)
  }

  /** The state of the flag loop: aborted with the command help, or the flag map and used indices so far. */
  datatype FlagStage = Failed | Resolved(flags: FlagMap, used: seq<nat>)

  /**
   * Whether declared flag `f` aborts the parse: required and unmatched, or
   * matched with too few arguments for a positive arity, or matched with a
   * negative arity.
   */
  predicate FlagFails(args: seq<Token>, ms: seq<Marker>, f: FlagSpec)
    requires MarkersWithin(ms, |args|)
  {
    match LookupFlag(ms, f)
    case None => f.required
    case Some(mk) => f.expectedArgs != 0 && !TakeArgs(args, mk.idx + 1, f.expectedArgs).allFound
  }

  /** One pass of the `for (const flag of command.flags)` loop. */
  function Step(args: seq<Token>, ms: seq<Marker>, f: FlagSpec, m: FlagMap, used: seq<nat>): FlagStage
    requires MarkersWithin(ms, |args|)
  {
    match LookupFlag(ms, f)
    case None => if f.required then Failed else Resolved(m, used)
    case Some(mk) =>
      var t := TakeArgs(args, mk.idx + 1, f.expectedArgs);
      if f.expectedArgs != 0 && !t.allFound then Failed
      else Resolved(Put(m, f.name, t.values), used + t.indices)
  }

  /**
   * The flag loop from pass `j` on, with the flag map `m` and used indices
   * `used` built so far: the first failing flag ends it with `Failed`.
   */
  function ResolveFrom(args: seq<Token>, ms: seq<Marker>, fs: seq<FlagSpec>, j: nat, m: FlagMap, used: seq<nat>): FlagStage
    requires MarkersWithin(ms, |args|) && j <= |fs|
    decreases |fs| - j
  {
    if j == |fs| then Resolved(m, used)
    else match Step(args, ms, fs[j], m, used)
      case Failed => Failed
      case Resolved(m', used') => ResolveFrom(args, ms, fs, j + 1, m', used')
  }

  /** The whole flag loop over the declared flags `fs`, from an empty map. */
  function ResolveAll(args: seq<Token>, ms: seq<Marker>, fs: seq<FlagSpec>): FlagStage
    requires MarkersWithin(ms, |args|)
  {
    ResolveFrom(args, ms, fs, 0, [], [])
  }

  /** The `passedArgs` loop over `args[..n]`: every token not at index 0 and not used. */
  function PassedUpTo(args: seq<Token>, used: seq<nat>, n: nat): seq<Token>
    requires n <= |args|
  {
    if n == 0 then []
    else
      var last := if n - 1 != 0 && n - 1 !in used then [args[n - 1]] else [];
      PassedUpTo(args, used, n - 1) + last
  }

  /** A raw token equal to `"--help"` or `"-h"`; numbers never are. */
  predicate IsHelpToken(t: Token) {
    t == Str("--help") || t == Str("-h")
  }

  predicate HelpRequested(args: seq<Token>) {
    exists i :: 0 <= i < |args| && IsHelpToken(args[i])
  }

  /**
   * What `handle` does once the first positional token named command `c`
   * (at index `k` of the schema): its help when asked for, when a flag
   * fails, or when the positional count is wrong; otherwise dispatch.
   */
  function CommandOutcome(c: CommandSpec, k: nat, args: seq<Token>): Outcome<nat> {
    if HelpRequested(args) then ShowHelp(CommandHelpText(c))
    else match ResolveAll(args, FlagMarkers(args), c.flags)
      case Failed => ShowHelp(CommandHelpText(c))
      case Resolved(m, used) =>
        var passed := PassedUpTo(args, used, |args|);
        if |passed| != c.expectedArgs then ShowHelp(CommandHelpText(c))
        else Invoke(k, passed, m)
  }

  /** `Argparse.handle` on a schema snapshot. */
  function HandleSpec(p: ParserSpec, args: seq<Token>): Outcome<nat> {
    var params := PositionalMarkers(args);
    if |params| < 1 then ShowHelp(ParserHelpText(p))
    else match FirstIndexOf(CommandNames(p.commands), params[0].name)
      case None => ShowHelp(ParserHelpText(p))
      case Some(k) => CommandOutcome(p.commands[k], k, args)
  }

  /** `handle` answers with the parser help when no positional token names a registered command. */
  lemma HandleSpecNoCommand(p: ParserSpec, args: seq<Token>)
    requires |PositionalMarkers(args)| < 1
      || FirstIndexOf(CommandNames(p.commands), PositionalMarkers(args)[0].name).None?
    ensures HandleSpec(p, args) == ShowHelp(ParserHelpText(p))
  {
  }

  /** Once the first positional token names command `k`, the rest is that command's outcome. */
  lemma HandleSpecCommand(p: ParserSpec, args: seq<Token>, k: nat)
    requires |PositionalMarkers(args)| >= 1
      && FirstIndexOf(CommandNames(p.commands), PositionalMarkers(args)[0].name) == Some(k)
    ensures k < |p.commands| && HandleSpec(p, args) == CommandOutcome(p.commands[k], k, args)
  {
  }
}
