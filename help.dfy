/**
 * The two help texts, as functions of the schema: the parser help listing
 * every registered command, and one command's help with its positional
 * argument descriptions and flags.
 */
module Help {
  import opened Tokens
  import opened Schema

  /** `getVersion()`: `major.minor.patch`. */
  function VersionText(v: Version): string {
    NatToString(v.major) + "." + NatToString(v.minor) + "." + NatToString(v.patch)
  }

  /** Splits at the first `.`, if there is one. */
  function SplitAtDot(s: string): Option<(string, string)> {
    match FirstIndexOf(s, '.')
    case None => None
    case Some(i) => Some((s[..i], s[i + 1..]))
  }

  /** Reads `major.minor.patch` back into a version. */
  function ParseVersion(s: string): Option<Version> {
    match SplitAtDot(s)
    case None => None
    case Some((a, rest)) =>
      match SplitAtDot(rest)
      case None => None
      case Some((b, c)) =>
        if AllDigits(a) && AllDigits(b) && AllDigits(c) then
          Some(Version(DecimalValue(a), DecimalValue(b), DecimalValue(c)))
        else None
  }

  lemma SplitAtDotAfterDigits(a: string, rest: string)
    requires AllDigits(a)
    ensures SplitAtDot(a + "." + rest) == Some((a, rest))
  {
    var s := a + "." + rest;
    assert s[|a|] == '.';
    assert forall j :: 0 <= j < |a| ==> s[j] == a[j] && s[j] != '.';
    var i := FirstIndexOf(s, '.').value;
    assert i == |a|;
    assert s[..i] == a;
    assert s[i + 1..] == rest;
  }

  lemma VersionRoundTrip(v: Version)
    ensures ParseVersion(VersionText(v)) == Some(v)
  {
    var a, b, c := NatToString(v.major), NatToString(v.minor), NatToString(v.patch);
    assert VersionText(v) == a + "." + (b + "." + c);
    SplitAtDotAfterDigits(a, b + "." + c);
    SplitAtDotAfterDigits(b, c);
    DecimalRoundTrip(v.major);
    DecimalRoundTrip(v.minor);
    DecimalRoundTrip(v.patch);
  }

  /** The first lines of the parser help; the literal `Cli`, not the parser's name, is printed. */
  function ParserBanner(v: Version): string {
    "\nCli " + VersionText(v) + "\n\nCommands:\n"
  }

  function CommandLine(c: CommandSpec): string {
    c.name + " - " + c.description + "\n"
  }

  function CommandLines(cs: seq<CommandSpec>): string {
    if cs == [] then "" else CommandLine(cs[0]) + CommandLines(cs[1..])
  }

  /** The parser help: the banner, then one `name - description` line per command in registration order. */
  function ParserHelpText(p: ParserSpec): string {
    ParserBanner(p.version) + CommandLines(p.commands)
  }

  function PositionalLine(idx: nat, d: string): string {
    NatToString(idx) + " - " + d + "\n"
  }

  /** One `index - description` line per positional argument description, numbered from `first`. */
  function PositionalLines(ds: seq<string>, first: nat): string {
    if ds == [] then "" else PositionalLine(first, ds[0]) + PositionalLines(ds[1..], first + 1)
  }

  function FlagLine(f: FlagSpec): string {
    if f.required then f.name + " - " + f.description + " (required)\n"
    else f.name + " - " + f.description + "\n"
  }

  function FlagLines(fs: seq<FlagSpec>): string {
    if fs == [] then "" else FlagLine(fs[0]) + FlagLines(fs[1..])
  }

  function CommandHeader(c: CommandSpec): string {
    "\nName: " + c.name + "\nDescription: " + c.description
    + "\nExpected args: " + IntToString(c.expectedArgs) + "\n"
  }

  function PositionalSection(c: CommandSpec): string {
    if |c.argDescriptions| > 0 then "\nPositional args:\n" + PositionalLines(c.argDescriptions, 0) else ""
  }

  function FlagSection(c: CommandSpec): string {
    if |c.flags| > 0 then "\nFlags:\n" + FlagLines(c.flags) else ""
  }

  /** A command's help: header, then the optional positional and flag sections. */
  function CommandHelpText(c: CommandSpec): string {
    CommandHeader(c) + PositionalSection(c) + FlagSection(c)
  }

  lemma Concat3(a: string, b: string, c: string)
    ensures a + (b + c) == a + b + c
  {
  }

  lemma Concat4(a: string, b: string, c: string, d: string)
    ensures a + (b + (c + d)) == a + b + c + d
  {
  }

  lemma {:induction false} CommandLinesAppend(a: seq<CommandSpec>, b: seq<CommandSpec>)
    ensures CommandLines(a + b) == CommandLines(a) + CommandLines(b)
  {
    if a == [] {
      assert a + b == b;
    } else {
      assert (a + b)[0] == a[0];
      assert (a + b)[1..] == a[1..] + b;
      CommandLinesAppend(a[1..], b);
      Concat3(CommandLine(a[0]), CommandLines(a[1..]), CommandLines(b));
    }
  }

  lemma {:induction false} FlagLinesAppend(a: seq<FlagSpec>, b: seq<FlagSpec>)
    ensures FlagLines(a + b) == FlagLines(a) + FlagLines(b)
  {
    if a == [] {
      assert a + b == b;
    } else {
      assert (a + b)[0] == a[0];
      assert (a + b)[1..] == a[1..] + b;
      FlagLinesAppend(a[1..], b);
      Concat3(FlagLine(a[0]), FlagLines(a[1..]), FlagLines(b));
    }
  }

  lemma {:induction false} PositionalLinesAppend(a: seq<string>, b: seq<string>, first: nat)
    ensures PositionalLines(a + b, first) == PositionalLines(a, first) + PositionalLines(b, first + |a|)
  {
    if a == [] {
      assert a + b == b;
    } else {
      assert (a + b)[0] == a[0];
      assert (a + b)[1..] == a[1..] + b;
      PositionalLinesAppend(a[1..], b, first + 1);
      Concat3(PositionalLine(first, a[0]), PositionalLines(a[1..], first + 1), PositionalLines(b, first + |a|));
    }
  }

  /** One pass of the parser help loop appends the next command's line. */
  lemma CommandLinesStep(cs: seq<CommandSpec>, i: nat, banner: string, text: string)
    requires i < |cs| && text == banner + CommandLines(cs[..i])
    ensures text + (cs[i].name + " - " + cs[i].description) + "\n" == banner + CommandLines(cs[..i + 1])
  {
    CommandLinesAppend(cs[..i], [cs[i]]);
    assert cs[..i + 1] == cs[..i] + [cs[i]];
  }

  /** One pass of the positional-description loop appends the next numbered line. */
  lemma PositionalLinesStep(ds: seq<string>, i: nat, before: string, text: string)
    requires i < |ds| && text == before + PositionalLines(ds[..i], 0)
    ensures text + PositionalLine(i, ds[i]) == before + PositionalLines(ds[..i + 1], 0)
  {
    PositionalLinesAppend(ds[..i], [ds[i]], 0);
    assert ds[..i + 1] == ds[..i] + [ds[i]];
    assert PositionalLines([ds[i]], i) == PositionalLine(i, ds[i]);
    Concat3(before, PositionalLines(ds[..i], 0), PositionalLine(i, ds[i]));
  }

  /** One pass of the flag loop appends the next flag's line. */
  lemma FlagLinesStep(fs: seq<FlagSpec>, i: nat, before: string, text: string)
    requires i < |fs| && text == before + FlagLines(fs[..i])
    ensures text + FlagLine(fs[i]) == before + FlagLines(fs[..i + 1])
  {
    FlagLinesAppend(fs[..i], [fs[i]]);
    assert fs[..i + 1] == fs[..i] + [fs[i]];
    assert FlagLines([fs[i]]) == FlagLine(fs[i]);
    Concat3(before, FlagLines(fs[..i]), FlagLine(fs[i]));
  }

  /** Command `k`'s line sits after the lines of all earlier-registered commands and before the later ones. */
  lemma ParserHelpListsCommandsInOrder(p: ParserSpec, k: nat)
    requires k < |p.commands|
    ensures ParserHelpText(p) == ParserBanner(p.version) + CommandLines(p.commands[..k])
      + CommandLine(p.commands[k]) + CommandLines(p.commands[k + 1..])
  {
    var cs := p.commands;
    assert cs == cs[..k] + ([cs[k]] + cs[k + 1..]);
    CommandLinesAppend(cs[..k], [cs[k]] + cs[k + 1..]);
    assert ([cs[k]] + cs[k + 1..])[1..] == cs[k + 1..];
    Concat4(ParserBanner(p.version), CommandLines(cs[..k]), CommandLine(cs[k]), CommandLines(cs[k + 1..]));
  }

  /** Flag `k`'s line sits in the Flags section (the last part of CommandHelpText) in declaration order. */
  lemma CommandHelpListsFlagsInOrder(c: CommandSpec, k: nat)
    requires k < |c.flags|
    ensures FlagSection(c) == "\nFlags:\n" + FlagLines(c.flags[..k]) + FlagLine(c.flags[k]) + FlagLines(c.flags[k + 1..])
  {
    var fs := c.flags;
    assert fs == fs[..k] + ([fs[k]] + fs[k + 1..]);
    FlagLinesAppend(fs[..k], [fs[k]] + fs[k + 1..]);
    assert ([fs[k]] + fs[k + 1..])[1..] == fs[k + 1..];
    Concat4("\nFlags:\n", FlagLines(fs[..k]), FlagLine(fs[k]), FlagLines(fs[k + 1..]));
  }

  /** Description `k` is printed with its zero-based index, after the earlier ones. */
  lemma CommandHelpNumbersPositionals(c: CommandSpec, k: nat)
    requires k < |c.argDescriptions|
    ensures PositionalSection(c) == "\nPositional args:\n" + PositionalLines(c.argDescriptions[..k], 0)
      + PositionalLine(k, c.argDescriptions[k]) + PositionalLines(c.argDescriptions[k + 1..], k + 1)
  {
    var ds := c.argDescriptions;
    assert ds == ds[..k] + ([ds[k]] + ds[k + 1..]);
    PositionalLinesAppend(ds[..k], [ds[k]] + ds[k + 1..], 0);
    assert ([ds[k]] + ds[k + 1..])[1..] == ds[k + 1..];
    Concat4("\nPositional args:\n", PositionalLines(ds[..k], 0), PositionalLine(k, ds[k]), PositionalLines(ds[k + 1..], k + 1));
  }
}
