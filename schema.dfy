/**
 * Value snapshots of the parser's schema (flags, commands, the parser
 * itself), the flag map that a successful parse hands to a handler, and
 * the first-match search that `Array.prototype.find` performs.
 */
module Schema {
  import opened Tokens

  datatype Option<T> = None | Some(value: T)

  /** The parser's semantic version; the source fixes it at 0.1.0 and offers no setter. */
  datatype Version = Version(major: nat, minor: nat, patch: nat)

  const DefaultVersion := Version(0, 1, 0)

  /** A flag as declared: canonical name, help description, arity, aliases, and whether it must be present. */
  datatype FlagSpec = FlagSpec(
    name: string,
    description: string,
    expectedArgs: int,
    aliases: seq<string>,
    required: bool)

  /** A command as declared; its handler is not part of the value (see Argparse.Command). */
  datatype CommandSpec = CommandSpec(
    name: string,
    description: string,
    expectedArgs: int,
    argDescriptions: seq<string>,
    flags: seq<FlagSpec>,
    aliases: seq<string>)

  datatype ParserSpec = ParserSpec(name: string, version: Version, commands: seq<CommandSpec>)

  /** Index of the first element equal to `x`, as `find`/`findIndex` scan from the front. */
  function FirstIndexOf<T(==)>(s: seq<T>, x: T): (r: Option<nat>)
    ensures r.Some? ==> r.value < |s| && s[r.value] == x
    ensures r.Some? ==> forall j :: 0 <= j < r.value ==> s[j] != x
    ensures r.None? <==> x !in s
  {
    if |s| == 0 then None
    else if s[0] == x then Some(0)
    else match FirstIndexOf(s[1..], x)
      case None => None
      case Some(k) => Some(k + 1)
  }

  function CommandNames(cs: seq<CommandSpec>): (r: seq<string>)
    ensures |r| == |cs| && forall i :: 0 <= i < |cs| ==> r[i] == cs[i].name
  {
    if cs == [] then [] else [cs[0].name] + CommandNames(cs[1..])
  }

  /**
   * The flag map handed to a handler: a JavaScript `Map` from a flag's
   * canonical name to the tokens consumed for it, kept in insertion order.
   */
  type FlagMap = seq<(string, seq<Token>)>

  function Keys(m: FlagMap): (r: seq<string>)
    ensures |r| == |m| && forall i :: 0 <= i < |m| ==> r[i] == m[i].0
  {
    if m == [] then [] else [m[0].0] + Keys(m[1..])
  }

  /** No key occurs twice, as in a JavaScript `Map`. */
  predicate UniqueKeys(m: FlagMap) {
    forall i, j :: 0 <= i < j < |m| ==> m[i].0 != m[j].0
  }

  /** `map.get(key)`, with `None` for an absent key. */
  function Get(m: FlagMap, key: string): (r: Option<seq<Token>>)
    ensures r.None? <==> key !in Keys(m)
  {
    match FirstIndexOf(Keys(m), key)
    case None => None
    case Some(i) => Some(m[i].1)
  }

  /**
   * `map.set(key, value)`: replaces the value of an existing key in place
   * (keeping its position), or appends a new entry at the end.
   */
  function Put(m: FlagMap, key: string, value: seq<Token>): FlagMap {
    match FirstIndexOf(Keys(m), key)
    case None => m + [(key, value)]
    case Some(i) => m[i := (key, value)]
  }

  /** `set` then `get` gives the new value, every other key keeps its value, and keys stay unique. */
  lemma PutSpec(m: FlagMap, key: string, value: seq<Token>)
    requires UniqueKeys(m)
    ensures UniqueKeys(Put(m, key, value))
    ensures Get(Put(m, key, value), key) == Some(value)
    ensures forall k :: k != key ==> Get(Put(m, key, value), k) == Get(m, k)
    ensures key in Keys(m) ==> Keys(Put(m, key, value)) == Keys(m)
    ensures key !in Keys(m) ==> Put(m, key, value) == m + [(key, value)]
  {
    if key in Keys(m) {
      PutExistingKey(m, key, value);
    } else {
      PutNewKey(m, key, value);
    }
  }

  /** Setting a second, different name after a first one appends it. */
  lemma PutSecond(a: string, va: seq<Token>, b: string, vb: seq<Token>)
    requires a != b
    ensures Put([(a, va)], b, vb) == [(a, va), (b, vb)]
  {
    assert Keys([(a, va)]) == [a];
    PutSpec([(a, va)], b, vb);
  }

  /** A new key is appended as the last entry. */
  lemma PutNewKey(m: FlagMap, key: string, value: seq<Token>)
    requires UniqueKeys(m) && key !in Keys(m)
    ensures UniqueKeys(Put(m, key, value))
    ensures Get(Put(m, key, value), key) == Some(value)
    ensures forall k :: k != key ==> Get(Put(m, key, value), k) == Get(m, k)
  {
    var r := m + [(key, value)];
    assert Put(m, key, value) == r;
    AppendUnique(m, key, value);
    GetUnique(r, |m|);
    forall k | k != key ensures Get(r, k) == Get(m, k) {
      GetAfterAppend(m, key, value, k);
    }
  }

  /** Appending an absent key keeps the keys unique. */
  lemma AppendUnique(m: FlagMap, key: string, value: seq<Token>)
    requires UniqueKeys(m) && key !in Keys(m)
    ensures UniqueKeys(m + [(key, value)])
  {
    var r := m + [(key, value)];
    forall i, j | 0 <= i < j < |r| ensures r[i].0 != r[j].0 {
      if j == |m| {
        assert Keys(m)[i] == r[i].0;
      }
    }
  }

  /** Appending an entry does not change what another key maps to. */
  lemma GetAfterAppend(m: FlagMap, key: string, value: seq<Token>, k: string)
    requires k != key
    ensures Get(m + [(key, value)], k) == Get(m, k)
  {
    assert Keys(m + [(key, value)]) == Keys(m) + [key];
    FirstIndexOfAppend(Keys(m), k, key);
  }

  /** An existing key keeps its position; only its value changes. */
  lemma PutExistingKey(m: FlagMap, key: string, value: seq<Token>)
    requires UniqueKeys(m) && key in Keys(m)
    ensures UniqueKeys(Put(m, key, value))
    ensures Get(Put(m, key, value), key) == Some(value)
    ensures forall k :: k != key ==> Get(Put(m, key, value), k) == Get(m, k)
    ensures Keys(Put(m, key, value)) == Keys(m)
  {
    var i := FirstIndexOf(Keys(m), key).value;
    var r := m[i := (key, value)];
    assert Put(m, key, value) == r;
    assert Keys(r) == Keys(m);
    GetUnique(r, i);
  }

  /** Appending a different element does not move the first match. */
  lemma FirstIndexOfAppend<T>(s: seq<T>, x: T, y: T)
    requires x != y
    ensures FirstIndexOf(s + [y], x) == FirstIndexOf(s, x)
  {
    var a, b := FirstIndexOf(s + [y], x), FirstIndexOf(s, x);
    assert x in s + [y] <==> x in s;
    if a.Some? && b.Some? {
      assert (s + [y])[b.value] == x;
      assert s[a.value] == x;
    }
  }

  /** In a map without repeated keys, `get` finds the one entry with that key. */
  lemma GetUnique(m: FlagMap, i: nat)
    requires UniqueKeys(m) && i < |m|
    ensures Get(m, m[i].0) == Some(m[i].1)
  {
    assert Keys(m)[i] == m[i].0;
  }
}
