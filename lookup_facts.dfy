/**
 * Properties of the first stages of `handle`: how the tokens are split
 * into flag and positional markers, how the command is picked, and how a
 * declared flag is matched against the flag markers.
 */
module LookupFacts {
  import opened Tokens
  import opened Schema
  import opened Help
  import opened Dispatch

  /** A marker is on one side exactly when it carries the text and the position of a token of that class. */
  lemma {:induction false} MarkerMembership(args: seq<Token>, n: nat, flagSide: bool, m: Marker)
    requires n <= |args|
    ensures m in Markers(args, n, flagSide) <==>
      m.idx < n && IsFlagToken(args[m.idx]) == flagSide && m.name == Text(args[m.idx])
  {
    if n > 0 {
      MarkerMembership(args, n - 1, flagSide, m);
    }
  }

  /** Markers keep the input order. */
  lemma {:induction false} MarkersIncreasing(args: seq<Token>, n: nat, flagSide: bool)
    requires n <= |args|
    ensures forall i, j :: 0 <= i < j < |Markers(args, n, flagSide)| ==>
      Markers(args, n, flagSide)[i].idx < Markers(args, n, flagSide)[j].idx
  {
    if n > 0 {
      MarkersIncreasing(args, n - 1, flagSide);
      assert MarkersWithin(Markers(args, n - 1, flagSide), n - 1);
    }
  }

  /** A token adds one marker, to the side of its class. */
  lemma MarkersStep(args: seq<Token>, n: nat)
    requires 0 < n <= |args|
    ensures |Markers(args, n, true)| + |Markers(args, n, false)| ==
      |Markers(args, n - 1, true)| + |Markers(args, n - 1, false)| + 1
  {
  }

  /** The two marker lists of the first `n` tokens together hold `n` markers. */
  lemma {:induction false} MarkersPartition(args: seq<Token>, n: nat)
    requires n <= |args|
    ensures |Markers(args, n, true)| + |Markers(args, n, false)| == n
  {
    if n == 0 {
      assert Markers(args, 0, true) == [] && Markers(args, 0, false) == [];
    } else {
      MarkersPartition(args, n - 1);
      MarkersStep(args, n);
    }
  }

  lemma ClassificationPartition(args: seq<Token>)
    ensures |FlagMarkers(args)| + |PositionalMarkers(args)| == |args|
  {
    MarkersPartition(args, |args|);
  }

  /** When every token is a flag token there is no positional marker. */
  lemma NoPositionalMarkers(args: seq<Token>)
    requires forall j :: 0 <= j < |args| ==> IsFlagToken(args[j])
    ensures PositionalMarkers(args) == []
  {
    if PositionalMarkers(args) != [] {
      var m := PositionalMarkers(args)[0];
      MarkerMembership(args, |args|, false, m);
    }
  }

  /** The first positional marker is the first token that is not a flag token. */
  lemma FirstPositionalMarker(args: seq<Token>, i: nat)
    requires i < |args| && !IsFlagToken(args[i])
    requires forall j :: 0 <= j < i ==> IsFlagToken(args[j])
    ensures |PositionalMarkers(args)| >= 1 && PositionalMarkers(args)[0] == Marker(Text(args[i]), i)
  {
    var ps := PositionalMarkers(args);
    var mi := Marker(Text(args[i]), i);
    MarkerMembership(args, |args|, false, mi);
    var k :| 0 <= k < |ps| && ps[k] == mi;
    MarkerMembership(args, |args|, false, ps[0]);
    MarkersIncreasing(args, |args|, false);
  }

  /** The first element equal to `x` is at `k` when `s[k] == x` and no earlier one is. */
  lemma FirstIndexOfIs<T>(s: seq<T>, x: T, k: nat)
    requires k < |s| && s[k] == x
    requires forall j :: 0 <= j < k ==> s[j] != x
    ensures FirstIndexOf(s, x) == Some(k)
  {
    assert x in s;
  }

  /** `find` picks the first marker that carries the name. */
  lemma FindMarkerFirst(ms: seq<Marker>, name: string, k: nat)
    requires k < |ms| && ms[k].name == name
    requires forall j :: 0 <= j < k ==> ms[j].name != name
    ensures FindMarker(ms, name) == Some(ms[k])
  {
    FirstIndexOfIs(MarkerNames(ms), name, k);
  }

  /**
   * The alias loop from pass `i` on ends with the lookup of the
   * second-to-last alias when it still reaches that alias, and otherwise
   * leaves `inputFlag` as it was: every pass overwrites the previous one.
   */
  lemma {:induction false} AliasLoopEffect(ms: seq<Marker>, aliases: seq<string>, i: nat, cur: Option<Marker>)
    requires cur.Some? ==> cur.value in ms
    ensures AliasLookup(ms, aliases, i, cur) ==
      if i + 2 <= |aliases| then FindMarker(ms, aliases[|aliases| - 2]) else cur
    decreases |aliases| - i
  {
    if i + 2 <= |aliases| {
      var found := FindMarker(ms, aliases[i]);
      assert !AliasBreak(found);
      AliasLoopEffect(ms, aliases, i + 1, found);
    }
  }

  /**
   * A declared flag matches the first marker with its name; failing that,
   * the first marker named by its second-to-last alias; failing that, nothing.
   */
  lemma LookupFlagEffect(ms: seq<Marker>, f: FlagSpec)
    ensures LookupFlag(ms, f) ==
      if FindMarker(ms, f.name).Some? then FindMarker(ms, f.name)
      else if |f.aliases| >= 2 then FindMarker(ms, f.aliases[|f.aliases| - 2])
      else None
  {
    AliasLoopEffect(ms, f.aliases, 0, None);
  }

  /** Two flags with the same name and the same second-to-last alias match the same marker, whatever their other aliases. */
  lemma OnlyPenultimateAliasMatters(ms: seq<Marker>, f: FlagSpec, g: FlagSpec)
    requires f.name == g.name && |f.aliases| >= 2 && |g.aliases| >= 2
    requires f.aliases[|f.aliases| - 2] == g.aliases[|g.aliases| - 2]
    ensures LookupFlag(ms, f) == LookupFlag(ms, g)
  {
    LookupFlagEffect(ms, f);
    LookupFlagEffect(ms, g);
  }

  /** With fewer than two aliases, only the canonical name is ever matched. */
  lemma FewAliasesNeverMatch(ms: seq<Marker>, f: FlagSpec)
    requires |f.aliases| < 2
    ensures LookupFlag(ms, f) == FindMarker(ms, f.name)
  {
    LookupFlagEffect(ms, f);
  }

  /** The last alias is never tried: `run -v` does not match a flag whose only alias is `-v`. */
  lemma LastAliasIgnoredExample()
    ensures LookupFlag(FlagMarkers([Str("run"), Str("-v")]), FlagSpec("--verbose", "", 0, ["-v"], false)) == None
    ensures FlagMarkers([Str("run"), Str("-v")]) == [Marker("-v", 1)]
  {
    var args := [Str("run"), Str("-v")];
    assert !IsFlagToken(args[0]) by { assert args[0].s[0] == 'r'; }
    assert Markers(args, 1, true) == [];
    FewAliasesNeverMatch(FlagMarkers(args), FlagSpec("--verbose", "", 0, ["-v"], false));
  }

  /** A later alias overwrites an earlier match: with aliases `-a -b -c`, the marker `-a` is lost. */
  lemma EarlierAliasOverwrittenExample()
    ensures LookupFlag(FlagMarkers([Str("run"), Str("-a")]), FlagSpec("--all", "", 0, ["-a", "-b", "-c"], false)) == None
  {
    var args := [Str("run"), Str("-a")];
    var ms := FlagMarkers(args);
    assert !IsFlagToken(args[0]) by { assert args[0].s[0] == 'r'; }
    assert Markers(args, 1, true) == [];
    assert ms == [Marker("-a", 1)];
    LookupFlagEffect(ms, FlagSpec("--all", "", 0, ["-a", "-b", "-c"], false));
    assert MarkerNames(ms) == ["-a"];
  }

  /** The parser help answers `handle` whenever no token is positional. */
  lemma NoPositionalGivesParserHelp(p: ParserSpec, args: seq<Token>)
    requires forall j :: 0 <= j < |args| ==> IsFlagToken(args[j])
    ensures HandleSpec(p, args) == ShowHelp(ParserHelpText(p))
  {
    NoPositionalMarkers(args);
  }

  /** The first non-flag token `args[i]` names the command, matched on canonical names only. */
  predicate NamesCommandAt(args: seq<Token>, i: nat) {
    i < |args| && !IsFlagToken(args[i]) && forall j :: 0 <= j < i ==> IsFlagToken(args[j])
  }

  /** The parser help answers `handle` when the first positional token is no registered command's name. */
  lemma UnknownCommandGivesParserHelp(p: ParserSpec, args: seq<Token>, i: nat)
    requires NamesCommandAt(args, i)
    requires forall k :: 0 <= k < |p.commands| ==> p.commands[k].name != Text(args[i])
    ensures HandleSpec(p, args) == ShowHelp(ParserHelpText(p))
  {
    FirstPositionalMarker(args, i);
    assert Text(args[i]) !in CommandNames(p.commands);
  }

  /**
   * The first registered command whose name is the first positional token
   * is the one that runs; a later command with the same name never does.
   */
  lemma FirstMatchingCommandWins(p: ParserSpec, args: seq<Token>, i: nat, k: nat)
    requires NamesCommandAt(args, i)
    requires k < |p.commands| && p.commands[k].name == Text(args[i])
    requires forall j :: 0 <= j < k ==> p.commands[j].name != Text(args[i])
    ensures HandleSpec(p, args) == CommandOutcome(p.commands[k], k, args)
  {
    FirstPositionalMarker(args, i);
    FirstIndexOfIs(CommandNames(p.commands), Text(args[i]), k);
  }

  /** A `--help` or `-h` token anywhere gives the command's help, whatever else is wrong with the input. */
  lemma HelpShortcut(p: ParserSpec, args: seq<Token>, i: nat, k: nat, h: nat)
    requires NamesCommandAt(args, i)
    requires k < |p.commands| && p.commands[k].name == Text(args[i])
    requires forall j :: 0 <= j < k ==> p.commands[j].name != Text(args[i])
    requires h < |args| && IsHelpToken(args[h])
    ensures HandleSpec(p, args) == ShowHelp(CommandHelpText(p.commands[k]))
  {
    FirstMatchingCommandWins(p, args, i, k);
  }

  /** Command aliases play no part: replacing them changes neither the chosen command nor any help text. */
  predicate SameButAliases(a: seq<CommandSpec>, b: seq<CommandSpec>) {
    |a| == |b| && forall k :: 0 <= k < |a| ==> b[k] == a[k].(aliases := b[k].aliases)
  }

  lemma {:induction false} CommandLinesIgnoreAliases(a: seq<CommandSpec>, b: seq<CommandSpec>)
    requires SameButAliases(a, b)
    ensures CommandLines(a) == CommandLines(b) && CommandNames(a) == CommandNames(b)
  {
    if a != [] {
      assert SameButAliases(a[1..], b[1..]) by {
        forall k | 0 <= k < |a[1..]| ensures b[1..][k] == a[1..][k].(aliases := b[1..][k].aliases) {
          assert b[1..][k] == b[k + 1];
        }
      }
      CommandLinesIgnoreAliases(a[1..], b[1..]);
      assert b[0] == a[0].(aliases := b[0].aliases);
    }
  }

  lemma CommandAliasesIgnored(p: ParserSpec, q: ParserSpec, args: seq<Token>)
    requires p.version == q.version && SameButAliases(p.commands, q.commands)
    ensures HandleSpec(p, args) == HandleSpec(q, args)
  {
    CommandLinesIgnoreAliases(p.commands, q.commands);
    var params := PositionalMarkers(args);
    if |params| >= 1 {
      match FirstIndexOf(CommandNames(p.commands), params[0].name)
      case None =>
      case Some(k) =>
        var c, d := p.commands[k], q.commands[k];
        assert d == c.(aliases := d.aliases);
        assert CommandHelpText(c) == CommandHelpText(d);
    }
  }
}
