/**
  What the add-in's configuration amounts to once loaded: an idle timeout and
  a blacklist of workbook names, stored lower-cased so that the check on open
  ignores case.
 */
module AddInConfig {
  import opened Wrappers
  import opened TimeFormat

  datatype Config = Config(idleTimeout: nat, blacklist: set<string>)

  /** The fallback idle timeout, 120 seconds, in ticks. */
  const DefaultIdleTimeout: nat := 120 * TicksPerSecond

  /** The configuration used when there is no usable configuration file. */
  const DefaultConfig: Config := Config(DefaultIdleTimeout, {})

  /** What the "Blacklist" key of the configuration file holds; an entry is `None` when it is not a plain scalar. */
  datatype BlacklistNode = Sequence(entries: seq<Option<string>>) | NotASequence

  /**
    The parts of a parsed configuration file the add-in reads, `None` where the
    key is absent. The idle timeout is already converted to ticks.
   */
  datatype ConfigFile = ConfigFile(idleTimeout: Option<nat>, blacklist: Option<BlacklistNode>)

  /** `ToLower` on one character, restricted to the ASCII letters. */
  function LowerChar(c: char): (r: char)
    ensures 'A' <= c <= 'Z' ==> r != c && r as int - c as int == 32
    ensures !('A' <= c <= 'Z') ==> r == c
    ensures !('A' <= r <= 'Z')
  {
    if 'A' <= c <= 'Z' then (c as int + 32) as char else c
  }

  function Lower(s: string): (r: string)
    ensures |r| == |s|
    ensures forall i :: 0 <= i < |s| ==> r[i] == LowerChar(s[i])
  {
    seq(|s|, i requires 0 <= i < |s| => LowerChar(s[i]))
  }

  /** Two names are the same up to the case of ASCII letters, compared character by character. */
  predicate SameIgnoringCase(a: string, b: string) {
    |a| == |b| && forall i :: 0 <= i < |a| ==> LowerChar(a[i]) == LowerChar(b[i])
  }

  /** Every name in the set is already lower-case. */
  predicate LowerCased(names: set<string>) {
    forall x :: x in names ==> Lower(x) == x
  }

  /** The blacklist as loaded: every configured name, lower-cased. */
  function LoadBlacklist(names: seq<string>): (b: set<string>)
    ensures forall x :: x in b <==> exists i :: 0 <= i < |names| && x == Lower(names[i])
    ensures LowerCased(b)
  {
    forall i | 0 <= i < |names| {
      LowerIdempotent(names[i]);
    }
    set i | 0 <= i < |names| :: Lower(names[i])
  }

  /**
    The names the blacklist loop adds: the scalar entries up to the first one
    that is not a scalar, where the failing cast ends the loop.
   */
  function ScalarPrefix(entries: seq<Option<string>>): (names: seq<string>)
    ensures |names| <= |entries|
    ensures forall i :: 0 <= i < |names| ==> entries[i] == Some(names[i])
    ensures |names| < |entries| ==> entries[|names|].None?
  {
    if |entries| == 0 || entries[0].None? then []
    else [entries[0].value] + ScalarPrefix(entries[1..])
  }

  /** An entry is loaded exactly when it and every entry before it are scalars. */
  predicate LoadedEntry(entries: seq<Option<string>>, i: int) {
    0 <= i < |entries| && forall j :: 0 <= j <= i ==> entries[j].Some?
  }

  lemma ScalarPrefixLoaded(entries: seq<Option<string>>, i: int)
    ensures LoadedEntry(entries, i) <==> 0 <= i < |ScalarPrefix(entries)|
  {
  }

  /**
    `LoadConfig`: the defaults, unless a readable file overrides them. `None`
    stands for a missing directory or file, or YAML with a semantic error; a
    missing key keeps its default, and a blacklist that is not a sequence
    loads no names.
   */
  function LoadConfig(file: Option<ConfigFile>): (cfg: Config)
    ensures file.None? ==> cfg == DefaultConfig
    ensures file.Some? ==> cfg.idleTimeout == file.value.idleTimeout.GetOr(DefaultIdleTimeout)
    ensures LowerCased(cfg.blacklist)
    ensures forall x :: x in cfg.blacklist <==>
      && file.Some? && file.value.blacklist.Some? && file.value.blacklist.value.Sequence?
      && exists i :: LoadedEntry(file.value.blacklist.value.entries, i)
                     && x == Lower(file.value.blacklist.value.entries[i].value)
  {
    match file
    case None => DefaultConfig
    case Some(f) =>
      var entries := if f.blacklist.Some? && f.blacklist.value.Sequence? then f.blacklist.value.entries else [];
      var names := ScalarPrefix(entries);
      forall i {
        ScalarPrefixLoaded(entries, i);
      }
      Config(f.idleTimeout.GetOr(DefaultIdleTimeout), LoadBlacklist(names))
  }

  /**
    The open handler's name test. A match always means some blacklisted name
    equals this one ignoring case; for a lower-cased blacklist, as loaded, the
    converse holds too.
   */
  function IsBlacklisted(cfg: Config, name: string): (b: bool)
    ensures b ==> exists x :: x in cfg.blacklist && SameIgnoringCase(x, name)
    ensures LowerCased(cfg.blacklist) ==> (b <==> exists x :: x in cfg.blacklist && SameIgnoringCase(x, name))
  {
    BlacklistMatch(cfg.blacklist, name);
    Lower(name) in cfg.blacklist
  }

  lemma BlacklistMatch(blacklist: set<string>, name: string)
    ensures Lower(name) in blacklist ==> exists x :: x in blacklist && SameIgnoringCase(x, name)
    ensures LowerCased(blacklist) && (exists x :: x in blacklist && SameIgnoringCase(x, name)) ==> Lower(name) in blacklist
  {
    LowerIdempotent(name);
    LowerEqualIffSameIgnoringCase(Lower(name), name);
    forall x | x in blacklist && SameIgnoringCase(x, name) {
      LowerEqualIffSameIgnoringCase(x, name);
    }
  }

  /** Lower-casing twice is lower-casing once. */
  lemma LowerIdempotent(s: string)
    ensures Lower(Lower(s)) == Lower(s)
  {
  }

  /** Equal after lower-casing exactly when equal ignoring case. */
  lemma LowerEqualIffSameIgnoringCase(a: string, b: string)
    ensures Lower(a) == Lower(b) <==> SameIgnoringCase(a, b)
  {
    if SameIgnoringCase(a, b) {
      assert forall i :: 0 <= i < |a| ==> Lower(a)[i] == Lower(b)[i];
    }
    if Lower(a) == Lower(b) {
      assert forall i :: 0 <= i < |a| ==> Lower(a)[i] == Lower(b)[i];
    }
  }

  /** A name is blacklisted exactly when some configured name matches it ignoring case. */
  lemma BlacklistIgnoresCase(idleTimeout: nat, names: seq<string>, name: string)
    ensures IsBlacklisted(Config(idleTimeout, LoadBlacklist(names)), name) <==>
      exists i :: 0 <= i < |names| && SameIgnoringCase(names[i], name)
  {
    forall i | 0 <= i < |names| {
      LowerEqualIffSameIgnoringCase(names[i], name);
    }
  }
}
