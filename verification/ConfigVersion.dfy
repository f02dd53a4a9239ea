/**
 The key-value configuration table and the firewall configuration version kept in it.
 The version is compared as text by a heartbeat, and bumped as a wrapping u64.
 */
module ConfigVersion {
  import opened Prelude
  import opened Decimal

  type Config = map<string, string>

  const VERSION_KEY := "FirewallConfigVersion"
  const COLLECT_KEY := "CollectDeviceData"

  function VersionRow(config: Config): Option<string> {
    if VERSION_KEY in config then Some(config[VERSION_KEY]) else None
  }

  /** What a heartbeat compares: the stored text, or "0" when there is no row. */
  function VersionText(config: Config): string {
    if VERSION_KEY in config then config[VERSION_KEY] else "0"
  }

  /** What a bump starts from: unreadable or absent text counts as zero. */
  function VersionNumber(config: Config): (n: nat)
    ensures n < U64_LIMIT
  {
    if VERSION_KEY !in config then 0
    else match ParseU64(config[VERSION_KEY])
      case Some(n) => n
      case None => 0
  }

  /** Wrapping u64 arithmetic. */
  function Wrap(n: nat): (r: nat)
    ensures r < U64_LIMIT
  {
    n % 0x1_0000_0000_0000_0000
  }

  function Bump(config: Config): Config {
    config[VERSION_KEY := Print(Wrap(VersionNumber(config) + 1))]
  }

  function Repeated<T>(f: T -> T, start: T, n: nat): T {
    if n == 0 then start else f(Repeated(f, start, n - 1))
  }

  function Bumps(config: Config, n: nat): Config {
    Repeated(Bump, config, n)
  }

  /** The stored text is the decimal text of the number it stands for. */
  predicate Canonical(config: Config) {
    VersionText(config) == Print(VersionNumber(config))
  }

  /** Rows under other keys play no part in versions and bumps. */
  lemma VersionIsItsRow(a: Config, b: Config)
    requires VersionRow(a) == VersionRow(b)
    ensures VersionText(a) == VersionText(b) && VersionRow(Bump(a)) == VersionRow(Bump(b))
  {
    assert VersionNumber(a) == VersionNumber(b);
  }

  lemma AfterBump(config: Config)
    ensures VersionNumber(Bump(config)) == Wrap(VersionNumber(config) + 1)
    ensures Canonical(Bump(config))
  {
    var next := Wrap(VersionNumber(config) + 1);
    ParsePrintU64(next);
    assert Bump(config)[VERSION_KEY] == Print(next);
  }

  lemma NextSum(b: nat, n: nat)
    requires n > 0
    ensures Wrap(Wrap(b + (n - 1)) + 1) == Wrap(b + n)
  {
  }

  /** `f` increments the number behind its argument, with wrap-around. */
  ghost predicate Increments<T(!new)>(f: T -> T, number: T -> nat) {
    forall c :: number(f(c)) == Wrap(number(c) + 1)
  }

  /** Repeating what increments a number with wrap-around adds with wrap-around. */
  lemma {:induction false} RepeatedSum<T(!new)>(f: T -> T, number: T -> nat, start: T, n: nat)
    requires Increments(f, number) && number(start) < U64_LIMIT
    ensures number(Repeated(f, start, n)) == Wrap(number(start) + n)
  {
    if n > 0 {
      RepeatedSum(f, number, start, n - 1);
      NextSum(number(start), n);
    }
  }

  lemma BumpsIncrement()
    ensures Increments(Bump, VersionNumber)
  {
    forall c: Config ensures VersionNumber(Bump(c)) == Wrap(VersionNumber(c) + 1) {
      AfterBump(c);
    }
  }

  lemma NumberAfterBumps(config: Config, n: nat)
    ensures VersionNumber(Bumps(config, n)) == Wrap(VersionNumber(config) + n)
  {
    BumpsIncrement();
    RepeatedSum(Bump, VersionNumber, config, n);
  }

  lemma AfterBumps(config: Config, n: nat)
    ensures VersionNumber(Bumps(config, n)) == Wrap(VersionNumber(config) + n)
    ensures n > 0 ==> Canonical(Bumps(config, n))
  {
    NumberAfterBumps(config, n);
    if n > 0 {
      AfterBump(Bumps(config, n - 1));
    }
  }

  /** Text of a version that was never canonical is not the text of any number. */
  lemma TextDeterminesNumber(config: Config, n: nat)
    requires n < U64_LIMIT && VersionText(config) == Print(n)
    ensures VersionNumber(config) == n && Canonical(config)
  {
    ParsePrintU64(n);
    if VERSION_KEY !in config {
      PrintInjective(0, n);
    }
  }

  lemma ShiftedResiduesAgree(b: nat, i: nat, j: nat)
    requires i < j
    ensures Wrap(b + i) == Wrap(b + j) <==> Wrap(j - i) == 0
  {
  }

  /** Exactly when two versions of one run look the same to a heartbeat. */
  lemma VersionTextsRepeatIff(config: Config, i: nat, j: nat)
    requires i < j
    ensures VersionText(Bumps(config, i)) == VersionText(Bumps(config, j)) <==>
            Wrap(j - i) == 0 && (i > 0 || Canonical(config))
  {
    AfterBumps(config, i);
    AfterBumps(config, j);
    var before, after := Bumps(config, i), Bumps(config, j);
    ShiftedResiduesAgree(VersionNumber(config), i, j);
    if VersionText(before) == VersionText(after) {
      TextDeterminesNumber(before, VersionNumber(after));
    }
  }

  /** Within fewer than 2^64 bumps no text is ever shown twice. */
  lemma VersionTextsDistinct(config: Config, i: nat, j: nat)
    requires i < j < i + U64_LIMIT
    ensures VersionText(Bumps(config, i)) != VersionText(Bumps(config, j))
  {
    assert Wrap(j - i) == j - i;
    VersionTextsRepeatIff(config, i, j);
  }

  /** One bump changes the text, whatever was stored: nothing, garbage, padded digits or u64::MAX. */
  lemma BumpChangesText(config: Config)
    ensures VersionText(Bump(config)) != VersionText(config)
  {
    VersionTextsRepeatIff(config, 0, 1);
    assert Bumps(config, 1) == Bump(Bumps(config, 0));
  }

  /** A bump writes the decimal text of the next number, which is 1 when no number was stored, and nothing else. */
  lemma BumpWrites(config: Config)
    ensures var after := Bump(config);
            && after.Keys == config.Keys + {VERSION_KEY}
            && (forall key :: key in config && key != VERSION_KEY ==> after[key] == config[key])
            && (VERSION_KEY !in config || ParseU64(config[VERSION_KEY]).None? ==> after[VERSION_KEY] == Print(1))
  {
    assert VERSION_KEY !in config || ParseU64(config[VERSION_KEY]).None? ==> VersionNumber(config) == 0 && Wrap(1) == 1;
  }

  /** After a number comes the next, and after the largest comes zero. */
  lemma BumpOfNumber(config: Config, n: nat)
    requires n < U64_LIMIT && VERSION_KEY in config && config[VERSION_KEY] == Print(n)
    ensures Bump(config)[VERSION_KEY] == Print(if n + 1 == U64_LIMIT then 0 else n + 1)
  {
    ParsePrintU64(n);
    assert Wrap(n + 1) == if n + 1 == U64_LIMIT then 0 else n + 1;
  }
}
