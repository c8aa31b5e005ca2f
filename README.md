# Argparse, modelled in Dafny

This project models `dev/lib/Argparse.js`, the small command-line parser and
dispatcher that the scripts of this repository use. A program builds a parser
with builder calls:

- an `Argparse` holds the parser's name, its version and its commands;
- each `Command` has a name, a description, a handler, a positional arity,
  positional descriptions, flags and aliases;
- each `Flag` has a name, a description, an arity, aliases and a required mark.

`handle` then turns the raw token list into one of two answers: a help text,
or a call of the matched command's handler. The handler receives the
positional tokens and the flag map.

The model follows the code as written, including its quirks:

- the alias loop's `break` can never fire: every alias but the last is
  looked up, each lookup overwrites the previous one, and so only the lookup
  of the second-to-last alias counts;
- a flag of arity 0 takes every token after it;
- a flag token is not marked used by its own flag, so unless another flag's
  argument loop takes it, it is passed as a positional argument when it is
  not at index 0;
- the guard in `execute` can never hold;
- the `idx < commandCount` test in the parser help is always true.

Modules:

- `Tokens`: the raw tokens (a string, or an integer-valued number), their
  text as `toString()` prints it, and the flag-token test.
- `Js`: the bit of JavaScript strict equality the two dead guards rely on.
- `Schema`: value snapshots of flags, commands and parsers. Also the
  insertion-ordered flag map with the `Map.set` behaviour, and the
  first-index search that `find` performs.
- `Help`: the version text and both help texts, as functions of a snapshot.
  Lemmas show what each text lists and in which order, and that the version
  text reads back as the version.
- `Dispatch`: `handle` as a function `HandleSpec` of a snapshot and the
  tokens. The function is built from the code's own stages: classification,
  command lookup, the help shortcut, then the flag loop with its alias lookup
  and greedy argument consumption, then the positional count and dispatch.
- `LookupFacts`, `ResolveFacts`, `DispatchFacts`: properties of those stages
  and of the whole of `handle`.
- `Argparse`: the three classes. Their builder methods update fields in
  place and return the object itself. `Handle` and both `Help` methods run
  the code's loops, and they are proved to compute the specification
  functions of `Dispatch` and `Help` on the objects' current snapshot
  (`Model()`). `GetRequiredFlags` runs its loop and is proved to compute
  `Argparse.RequiredFlags`, the order-keeping filter of required flags.
- `CliExample`: the parser that `dev/Cli.js` builds, and what `handle`
  answers to a few invocations of it.

Where the code and its own comments or evident intent differ, the model
follows the code:

- The comment on `setExpectedArgs` (dev/lib/Argparse.js:243) says flags do
  not count as arguments. In `handle`, however, only the tokens a flag
  consumes are recorded as used (dev/lib/Argparse.js:142). The flag tokens
  themselves stay positional and are counted against the arity
  (`ResolveFacts.FlagMarkerStaysPositional`).
  - `gather-info --host h --port 5` therefore runs `gather-info` with the
    two positional arguments `--host --port` (`CliExample.GatherInfoWithFlags`).
    dev/Cli.js:18 declares arity 2 for this command, whose only inputs are
    the two flags, so it relies on this behaviour.
  - `gather-info hostA 5 --host hostA --port 5` (with `5` a number) leaves four positional
    tokens where two are declared, so the answer is the command's help
    (`CliExample.GatherInfoWithExtraPositionals`).
- One might expect every token to be exactly one of three things: the
  command slot, a positional argument, or a consumed flag argument.
  Positional count, plus consumed flag arguments, plus one, then equals the
  token count. This holds when no index is used twice
  (`ResolveFacts.TokenAccounting`). An index is used twice whenever the
  consumption ranges of two matched flags overlap. This happens in three ways:
  - two flags match the same marker, through the alias lookup
    (`ResolveFacts.DoubleConsumptionExample`) or because they share a name;
  - a zero-arity flag takes everything after its marker, another flag's
    marker and arguments included (`ResolveFacts.ZeroArityOverlapExample`);
  - a flag's arity runs past the next flag's marker.
- The guard at dev/lib/Argparse.js:319 evidently means to skip the handler
  when the positional count differs from the arity. It compares the boolean
  `!params.length` with a number, so it never holds, and the handler is
  always called (`Argparse.Command.Execute`).

## Model

| member | source | states |
|---|---|---|
| Dispatch.HandleSpec | dev/lib/Argparse.js:70-169 | defines `handle`'s answer on a snapshot: the parser help without a positional token or without a command of that name, else the first such command's outcome |
| Dispatch.CommandOutcome | dev/lib/Argparse.js:101-168 | defines the answer once a command is found: its help on a help token, on a failing flag, or when the passed tokens are not as many as its arity; otherwise an invocation with the passed tokens and the flag map |
| Dispatch.Markers | dev/lib/Argparse.js:79-89 | the markers of the first `n` tokens on one side of the classification, with text and index in input order; at most `n` of them, each pointing before `n` |
| Dispatch.FindMarker | dev/lib/Argparse.js:113 | `find` by name: a found marker is one of the markers and carries the name, and none is found exactly when no marker carries it |
| Dispatch.AliasBreak | dev/lib/Argparse.js:120 | the alias loop's break test is never true |
| Dispatch.AliasLookup | dev/lib/Argparse.js:115-126 | the alias loop from pass `i`: every pass overwrites `inputFlag` and the loop stops before the last alias; a result is one of the markers |
| Dispatch.LookupFlag | dev/lib/Argparse.js:113-126 | a declared flag's marker: by canonical name, else by the alias loop; a result is one of the markers |
| Dispatch.TakeArgs | dev/lib/Argparse.js:135-148 | the consumption loop from `start`: `expected` tokens and their indices with `allFound` set, or, with an arity that is not positive or too few tokens left, the whole rest without it |
| Dispatch.FlagFails | dev/lib/Argparse.js:128-152 | a declared flag aborts the parse when it is required and unmatched, or matched with fewer tokens after its marker than a positive arity, or matched with a negative arity |
| Dispatch.Step | dev/lib/Argparse.js:111-155 | one pass of the flag loop: abort, skip an unmatched optional flag, or set the flag's name to its tokens and append their indices |
| Dispatch.ResolveFrom | dev/lib/Argparse.js:111-155 | the flag loop from pass `j`, stopping at the first abort |
| Dispatch.ResolveAll | dev/lib/Argparse.js:108-155 | the whole flag loop, from an empty map and no used indices |
| Dispatch.PassedUpTo | dev/lib/Argparse.js:157-162 | the `passedArgs` loop over the first `n` tokens: those not at index 0 and not used, in input order |
| Dispatch.HelpRequested | dev/lib/Argparse.js:102-106 | some raw token is the string `--help` or `-h` |
| Help.VersionText | dev/lib/Argparse.js:47 | the text `major.minor.patch` |
| Help.ParserHelpText | dev/lib/Argparse.js:176-190 | the banner with the literal `Cli` and the version, then one `name - description` line per command in registration order |
| Help.CommandHelpText | dev/lib/Argparse.js:329-350 | the name, description and arity header, then the positional section, then the flags section |
| Schema.Put | dev/lib/Argparse.js:154 | `Map.set`: replaces the value of an existing key in its place, or appends a new entry |
| Schema.Get | dev/Cli.js:32-33 | `Map.get`: the value of a key, and none exactly when the key is absent |
| Tokens.NatToString | dev/lib/Argparse.js:47 | the decimal text of a natural number: nonempty, all digits, and with no leading zero unless the number is 0 |
| Tokens.IntToString | dev/lib/Argparse.js:80 | the decimal text of an integer, with a leading `-` exactly when it is negative (as JavaScript prints it for safe integers) |
| Tokens.Text | dev/lib/Argparse.js:80 | `arg.toString()`: a string is its own text, a number its decimal text (as JavaScript prints it for safe integers) |
| Tokens.IsFlagToken | dev/lib/Argparse.js:81-85 | the classification test: a string starting with `-`; a number never is |
| Js.StrictEquals | dev/lib/Argparse.js:319 | `===` on the values the two guards compare (here and at line 120): values of different types are never equal |
| Argparse.Flag.constructor | dev/lib/Argparse.js:368-370 | a new flag has the given name, an empty description, arity 0, no aliases, and is not required |
| Argparse.Flag.SetDescription | dev/lib/Argparse.js:380-384 | returns the same flag; only the description changes |
| Argparse.Flag.SetExpectedArgs | dev/lib/Argparse.js:393-397 | returns the same flag; only the arity changes |
| Argparse.Flag.AddAlias | dev/lib/Argparse.js:407-411 | returns the same flag; the alias is appended at the end and nothing else changes |
| Argparse.Flag.SetRequired | dev/lib/Argparse.js:420-424 | returns the same flag; only the required mark changes |
| Argparse.Command.constructor | dev/lib/Argparse.js:209-211 | a new command has the given name, empty description, arity 0, no descriptions, flags or aliases, and no handler |
| Argparse.Command.SetDescription | dev/lib/Argparse.js:221-225 | returns the same command; only the description changes |
| Argparse.Command.SetFunc | dev/lib/Argparse.js:234-238 | returns the same command; only the handler changes, and the snapshot stays the same |
| Argparse.Command.SetExpectedArgs | dev/lib/Argparse.js:249-253 | returns the same command; only the arity changes |
| Argparse.Command.AddFlag | dev/lib/Argparse.js:262-266 | returns the same command; the flag is appended at the end of its flags and nothing else changes |
| Argparse.Command.AddAlias | dev/lib/Argparse.js:292-296 | returns the same command; the alias is appended at the end and nothing else changes |
| Argparse.Command.AddArgDescription | dev/lib/Argparse.js:306-310 | returns the same command; the description is appended at the end and nothing else changes |
| Argparse.Command.GetRequiredFlags | dev/lib/Argparse.js:273-283 | the result is the required flags in declaration order, and a flag is in it exactly when it is one of the command's flags and required |
| Argparse.Command.Execute | dev/lib/Argparse.js:318-324 | the handler is called with exactly the given tokens and flag map whenever one is set, whatever the positional count; without a handler the call fails |
| Argparse.Command.Help | dev/lib/Argparse.js:329-350 | the text built is the command help text of the command's current snapshot |
| Argparse.Command.AppendPositionals | dev/lib/Argparse.js:331-336 | appends the index-numbered positional section, which is empty without descriptions |
| Argparse.Command.AppendFlags | dev/lib/Argparse.js:337-347 | appends the flags section, one line per flag with a required suffix, which is empty without flags |
| Argparse.Argparse.constructor | dev/lib/Argparse.js:26-28 | a new parser has the given name, version 0.1.0 and no commands |
| Argparse.Argparse.GetVersion | dev/lib/Argparse.js:46-48 | the text `major.minor.patch` parses back to exactly the parser's version |
| Argparse.Argparse.AddCommand | dev/lib/Argparse.js:57-61 | returns the same parser; the command is appended at the end and nothing else changes |
| Argparse.Argparse.Help | dev/lib/Argparse.js:176-190 | the text built is the parser help text of the current snapshot: the banner, then one line per command; the always-true test adds every newline |
| Argparse.Argparse.Handle | dev/lib/Argparse.js:70-169 | the answer is `HandleSpec` of the snapshot before the call; a dispatch names the command object at the chosen index |
| Argparse.Argparse.HandleNamed | dev/lib/Argparse.js:96-99 | after classification, the answer is the parser help when no command has the first positional token's name, and otherwise that command's outcome |
| Argparse.HandleCommand | dev/lib/Argparse.js:101-168 | after a command is found, the answer is `CommandOutcome` of that command's snapshot before the call, with the command object dispatched |
| Argparse.Classify | dev/lib/Argparse.js:79-89 | the two marker lists built are the flag markers and the positional markers of the tokens |
| Argparse.ScanForHelp | dev/lib/Argparse.js:102-106 | true exactly when some raw token is the string `--help` or `-h` |
| Argparse.FindInputFlag | dev/lib/Argparse.js:113-126 | the marker found is `LookupFlag` of that flag's snapshot: by name, then by the alias loop |
| Argparse.ConsumeFlagArgs | dev/lib/Argparse.js:135-148 | the tokens taken, the indices appended and the `allFound` result are those of the greedy take |
| Argparse.ResolveOne | dev/lib/Argparse.js:111-155 | one pass over a declared flag gives `Step`: fail, skip, or set the name's tokens and record the used indices |
| Argparse.ResolveFlags | dev/lib/Argparse.js:111-155 | the flag loop gives `ResolveAll` over all declared flags, stopping at the first failure |
| Argparse.CollectPassed | dev/lib/Argparse.js:157-162 | the tokens passed are those at nonzero, unused indices, in input order |
| Tokens.DecimalRoundTrip | dev/lib/Argparse.js:47 | the decimal text of a natural number reads back as that number |
| Tokens.NegativeNumberIsNotFlag | dev/lib/Argparse.js:80-88 | a negative number prints with a leading `-`, yet is classified as positional |
| Schema.PutSpec | dev/lib/Argparse.js:154 | `set` keeps keys unique, maps the key to the new value, leaves other keys alone, and keeps an existing key's place |
| Schema.PutNewKey | dev/lib/Argparse.js:154 | `set` of a new key keeps keys unique, maps it to the value, and leaves every other key alone |
| Schema.PutExistingKey | dev/lib/Argparse.js:154 | `set` of an existing key replaces its value and leaves the key list as it was |
| Help.VersionRoundTrip | dev/lib/Argparse.js:46-48 | the version text parses back to the version |
| Help.ParserHelpListsCommandsInOrder | dev/lib/Argparse.js:176-190 | the parser help is the banner followed by each command's line, in registration order |
| Help.CommandHelpListsFlagsInOrder | dev/lib/Argparse.js:337-347 | the flags section lists every flag's line in declaration order |
| Help.CommandHelpNumbersPositionals | dev/lib/Argparse.js:331-336 | the positional section gives description `k` the prefix `k`, in declaration order |
| LookupFacts.MarkerMembership | dev/lib/Argparse.js:79-89 | a marker is on a side exactly when it carries the text and the index of a token of that class |
| LookupFacts.MarkersIncreasing | dev/lib/Argparse.js:79-89 | both marker lists keep the input order |
| LookupFacts.MarkersPartition | dev/lib/Argparse.js:79-89 | the flag and positional marker lists of the first `n` tokens together hold `n` markers |
| LookupFacts.ClassificationPartition | dev/lib/Argparse.js:79-89 | the two marker lists together are as long as the input |
| LookupFacts.NoPositionalMarkers | dev/lib/Argparse.js:79-89 | when every token is a flag token there is no positional marker |
| LookupFacts.FirstPositionalMarker | dev/lib/Argparse.js:79-89 | the first positional marker is the first token that is not a flag token |
| LookupFacts.FindMarkerFirst | dev/lib/Argparse.js:113 | `find` returns the first marker carrying the name |
| LookupFacts.AliasLoopEffect | dev/lib/Argparse.js:115-126 | the alias loop ends with the lookup of the second-to-last alias, or leaves the flag as it was when it runs no pass |
| LookupFacts.LookupFlagEffect | dev/lib/Argparse.js:113-126 | a flag matches the first marker with its name, else the first one with its second-to-last alias, else nothing |
| LookupFacts.OnlyPenultimateAliasMatters | dev/lib/Argparse.js:115-126 | two flags with the same name and the same second-to-last alias match the same marker, whatever their other aliases |
| LookupFacts.FewAliasesNeverMatch | dev/lib/Argparse.js:115-126 | with fewer than two aliases only the canonical name is matched |
| LookupFacts.LastAliasIgnoredExample | dev/lib/Argparse.js:115-126 | `run -v` does not match a flag whose only alias is `-v` |
| LookupFacts.EarlierAliasOverwrittenExample | dev/lib/Argparse.js:115-126 | with aliases `-a -b -c`, the marker `-a` is found and then overwritten |
| LookupFacts.NoPositionalGivesParserHelp | dev/lib/Argparse.js:91-93 | input made only of flag tokens gets the parser help |
| LookupFacts.UnknownCommandGivesParserHelp | dev/lib/Argparse.js:96-99 | a first positional token naming no registered command gets the parser help |
| LookupFacts.FirstMatchingCommandWins | dev/lib/Argparse.js:96-99 | the first registered command with that name is the one handled |
| LookupFacts.HelpShortcut | dev/lib/Argparse.js:102-106 | a `--help` or `-h` token anywhere gives the command's help, whatever the flags and the count |
| LookupFacts.CommandLinesIgnoreAliases | dev/lib/Argparse.js:176-190 | command aliases change neither the command names nor the parser help lines |
| LookupFacts.CommandAliasesIgnored | dev/lib/Argparse.js:96 | command aliases never affect `handle`'s answer |
| ResolveFacts.RangeMembership | dev/lib/Argparse.js:142 | the indices recorded by the argument loop are exactly those from its start up to its end |
| ResolveFacts.TakeArgsSpec | dev/lib/Argparse.js:135-148 | the loop takes consecutive tokens after the marker, records exactly their indices, and reports success exactly when it took `expectedArgs > 0` of them |
| ResolveFacts.StepTakesArguments | dev/lib/Argparse.js:111-154 | a flag found by name with enough tokens after it gets the next `expectedArgs` tokens under its name |
| ResolveFacts.ResolveAllFails | dev/lib/Argparse.js:128-152 | the flag loop aborts exactly when some declared flag is required and unmatched, matched with fewer tokens after its marker than a positive arity, or matched with a negative arity |
| ResolveFacts.ResolveAllKeys | dev/lib/Argparse.js:154 | the flag map's names are exactly the canonical names of the declared flags that matched a marker |
| ResolveFacts.ResolveAllUniqueKeys | dev/lib/Argparse.js:154 | the flag map never holds a name twice |
| ResolveFacts.ResolveAllValue | dev/lib/Argparse.js:135-154 | a name's value is what the last matched flag of that name consumed |
| ResolveFacts.ResolveAllAbsent | dev/lib/Argparse.js:128-133 | a name that no declared flag matched has no entry |
| ResolveFacts.ResolveAllUsed | dev/lib/Argparse.js:142 | an index is used exactly when some matched flag's argument loop took it |
| ResolveFacts.ResolveAllUsedWithin | dev/lib/Argparse.js:135-148 | used indices are after index 0 and inside the input |
| ResolveFacts.ZeroArityFlagSwallowsRest | dev/lib/Argparse.js:140-148 | a matched flag of arity 0 uses every index after its marker |
| ResolveFacts.PassedMembership | dev/lib/Argparse.js:157-162 | a token is passed exactly when it sits at a nonzero, unused index |
| ResolveFacts.PassedStopsAtUsed | dev/lib/Argparse.js:157-162 | once every index from `a` on is used, nothing after `a` is passed |
| ResolveFacts.ZeroArityFlagEndsPositionals | dev/lib/Argparse.js:140-162 | after a matched zero-arity flag, no token is passed |
| ResolveFacts.PassedCount | dev/lib/Argparse.js:157-162 | passed tokens, used indices below `n` and the command slot add up to `n` |
| ResolveFacts.ResolveFromUsedCount | dev/lib/Argparse.js:142 | each matched flag records one index per consumed token |
| ResolveFacts.TokenAccounting | dev/lib/Argparse.js:140-162 | with no index consumed twice, passed tokens, consumed flag arguments and the command slot add up to the token count |
| ResolveFacts.TwoFlagsShareToken | dev/lib/Argparse.js:113-154 | for three tokens, the first flag's marker at index 1, two flags of arity 1 with distinct names, and the second flag's second-to-last alias equal to the first flag's name: both flags match that marker and both take `args[2]`, which is counted twice |
| ResolveFacts.DoubleConsumptionExample | dev/lib/Argparse.js:140-162 | for `cmd --a x`, both flags get `x`; the identity overshoots the token count by one |
| ResolveFacts.ZeroArityOverlapsNextFlag | dev/lib/Argparse.js:135-154 | for four tokens and exactly two declared flags with distinct names, the first of arity 0 with its marker at index 1 and the second of arity 1 with its marker at index 2: the first takes tokens 2 and 3, the second takes token 3 again, and the used indices are [2, 3, 3] |
| ResolveFacts.ZeroArityOverlapExample | dev/lib/Argparse.js:135-162 | for `cmd --a --b y`, `--a` gets `--b y`, `--b` gets `y`, the used indices are `2 3 3`, and only `--a` is passed |
| ResolveFacts.FlagMarkerStaysPositional | dev/lib/Argparse.js:84-85 | when the flag loop does not abort, a flag token at a nonzero index is passed as a positional argument unless some flag's argument loop took it |
| DispatchFacts.CommandInvokeIff | dev/lib/Argparse.js:102-168 | a named command is invoked exactly when no help token is present, no declared flag fails, and the positional count is its arity |
| DispatchFacts.CommandHelpOtherwise | dev/lib/Argparse.js:102-166 | every other answer for a named command is that command's help |
| DispatchFacts.InvokeArguments | dev/lib/Argparse.js:154-168 | the handler receives exactly `expectedArgs` tokens and a flag map without repeats, holding exactly the matched flags' names |
| DispatchFacts.MissingRequiredFlag | dev/lib/Argparse.js:128-133 | a required flag that matches no marker gives the command's help |
| DispatchFacts.TooFewFlagArguments | dev/lib/Argparse.js:150-152 | a flag of positive arity with too few tokens after it gives the command's help |
| DispatchFacts.HandleAnswers | dev/lib/Argparse.js:70-169 | every answer is the parser help, a registered command's help, or the first command named by the first positional token, invoked with its arity's worth of tokens |
| CliExample.GatherInfoWithFlags | dev/Cli.js:16-60 | `gather-info --host h --port 5` runs `gather-info` with the flag tokens as its two positional arguments |
| CliExample.GatherInfoWithExtraPositionals | dev/Cli.js:16-60 | `gather-info hostA 5 --host hostA --port 5` gets the command's help |
| CliExample.GatherInfoWithoutPort | dev/Cli.js:19-30 | without the required `--port`, the answer is the command's help |
| CliExample.ScanOneHost | dev/Cli.js:62-70 | `scan n00dles` runs `scan` with one positional argument and no flags |
| CliExample.UnknownCommand | dev/Cli.js:5-90 | `--verbose hack` names no command and gets the parser help |
| CliExample.FlaglessOutcome | dev/lib/Argparse.js:102-168 | with no help token, a command without flags runs with every token after its name exactly when their count is its arity, and otherwise answers with its help |
| CliExample.CliAnswers | dev/Cli.js:5-90 | the parser built in `dev/Cli.js` gives these answers to the five invocations above |

## Left out

- `main` (dev/lib/Argparse.js:2-4) only throws, so there is nothing to model.
- `Argparse.toString` (dev/lib/Argparse.js:35-39) is a call to `JSON.stringify`, which is foreign code.
- What the handlers do is not modelled. `dev/Cli.js` handlers, `dev/GatherInfo.js` and `dev/scan/Basic.js` are game-API I/O. A handler function is an opaque `HandlerId`.
- `async` and `await` are not modelled. A handler's error simply propagates.
- Argparse.Argparse.Handle: returns the dispatch decision (`Invoke` with the command object, the tokens and the flag map) instead of awaiting the handler. `Argparse.Command.Execute` models that call on its own.
- Number tokens and arities are modelled exactly only for safe integers (magnitude below 2^53). JavaScript prints a larger integer-valued number with its shortest round-trip digits (`(2**60).toString()` is `1152921504606847000`), and from 1e21 on in exponent form; `Tokens.Text` prints every digit instead, which can change a lookup by name. Fractional numbers are not modelled: neither their text nor a fractional arity such as `setExpectedArgs(1.5)`, which would make a matched flag take the whole rest and abort, and a command always answer with its help.
- The contracts of the builders, `Handle`, `HandleNamed` and `HandleCommand` are stated against `old()` snapshots. They rely on the flag and command objects not being changed by the call.
- Unchecked JavaScript dynamic typing is not modelled: a non-string, non-number token, or a non-number arity, cannot be expressed.
- The parser's own name is never shown: the help banner uses the literal `Cli`. The model keeps the name as a field and the literal in the text.
