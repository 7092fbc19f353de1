/** Fakelag, the delay put on commands that come too rapidly (irc/fakelag.go).

    Time is an integer. `log` is the history of all commands that were released, and `Governed` the part
    of it that fakelag governs: neither on a command budget nor while it was off. The two-state machine
    of the code is proved to decide by the last entry of that part alone, and the rate bound is proved about
    all commands. */
module Fakelag {
  import opened Common

  /** MessagesPerWindow, BurstLimit, Cooldown and Window of the configuration. */
  datatype Config = Config(window: nat, burstLimit: nat, messagesPerWindow: nat, cooldown: nat)

  /** Minimal time between throttled commands. */
  function Spacing(config: Config): nat
    requires config.messagesPerWindow > 0
  {
    config.window / config.messagesPerWindow
  }

  /** Burst(k) is the k-th command of a burst. */
  datatype Kind = Burst(k: nat) | Spaced

  datatype Release = Release(time: int, kind: Kind)

  function Max(a: int, b: int): int {
    if a >= b then a else b
  }

  /** When a command that comes at `now` is released, and as what: by how long ago the last one was
      released, and how far the burst is that it belonged to. A sleep takes `late` longer than asked for. */
  function NextRelease(config: Config, last: Option<Release>, now: int, late: nat): Release {
    if last.None? || now - last.value.time > config.cooldown then Release(now, Burst(1))
    else if last.value.kind.Burst? && last.value.kind.k < config.burstLimit then Release(now, Burst(last.value.kind.k + 1))
    else
      var from := last.value.time + if config.messagesPerWindow > 0 then Spacing(config) else config.cooldown;
      Release(if now < from then from + late else now, if config.messagesPerWindow > 0 then Spaced else Burst(1))
  }

  function Last(releases: seq<Release>): Option<Release> {
    if releases == [] then None else Some(releases[|releases| - 1])
  }

  /** Commands of a burst are numbered, a burst has at most max(burstLimit, 1) of them and comes at least
      a cooldown after the previous command; spaced commands are at least the spacing apart. */
  predicate FollowsWell(config: Config, last: Option<Release>, next: Release) {
    match next.kind
    case Burst(k) =>
      && 1 <= k <= Max(config.burstLimit, 1)
      && (k == 1 ==> last.None? || next.time >= last.value.time + config.cooldown)
      && (k > 1 ==> last.Some? && last.value.kind == Burst(k - 1) && next.time >= last.value.time)
    case Spaced =>
      config.messagesPerWindow > 0 && last.Some? && next.time >= last.value.time + Spacing(config)
  }

  predicate FollowsAt(config: Config, releases: seq<Release>, i: nat)
    requires i < |releases|
  {
    FollowsWell(config, if i == 0 then None else Some(releases[i - 1]), releases[i])
  }

  predicate WellSpaced(config: Config, releases: seq<Release>) {
    forall i :: 0 <= i < |releases| ==> FollowsAt(config, releases, i)
  }

  lemma {:induction false} NextIsWellTimed(config: Config, last: Option<Release>, now: int, late: nat)
    requires last.Some? ==> last.value.time <= now && (last.value.kind.Burst? ==> last.value.kind.k >= 1)
    ensures var next := NextRelease(config, last, now, late); next.time >= now && FollowsWell(config, last, next)
  {
  }

  lemma {:induction false} NextFollowsWell(config: Config, releases: seq<Release>, now: int, late: nat)
    requires WellSpaced(config, releases) && (releases != [] ==> Last(releases).value.time <= now)
    ensures var next := NextRelease(config, Last(releases), now, late);
            next.time >= now && WellSpaced(config, releases + [next])
  {
    var next, n := NextRelease(config, Last(releases), now, late), |releases|;
    if n > 0 {
      assert FollowsAt(config, releases, n - 1);
    }
    NextIsWellTimed(config, Last(releases), now, late);
    forall i | 0 <= i <= n ensures FollowsAt(config, releases + [next], i) {
      if i < n {
        assert FollowsAt(config, releases, i);
      }
    }
  }

  lemma {:induction false} LastAfter(releases: seq<Release>, next: Release)
    ensures Last(releases + [next]) == Some(next)
  {
  }

  // ---------------------------------------------------------------- all commands

  /** A command that was released: as fakelag demands, on a budget, or while fakelag was off. */
  datatype Out = ByRate(release: Release) | ByBudget(at: int, command: string) | ByNothing(at: int)

  function TimeOf(out: Out): int {
    if out.ByRate? then out.release.time else out.at
  }

  function Governed(log: seq<Out>): seq<Release> {
    if log == [] then []
    else
      var last := log[|log| - 1];
      var before := Governed(log[..|log| - 1]);
      if last.ByRate? then before + [last.release] else before
  }

  function OnBudget(log: seq<Out>): nat {
    if log == [] then 0 else OnBudget(log[..|log| - 1]) + if log[|log| - 1].ByBudget? then 1 else 0
  }

  predicate InOrder(log: seq<Out>) {
    forall i, j :: 0 <= i < j < |log| ==> TimeOf(log[i]) <= TimeOf(log[j])
  }

  predicate HasBudget(budgets: map<string, int>, command: string) {
    command in budgets && budgets[command] > 0
  }

  function Spend(budgets: map<string, int>, command: string): map<string, int> {
    if command in budgets then budgets[command := budgets[command] - 1] else budgets
  }

  /** The budgets after these commands. */
  function Spent(budgets: map<string, int>, log: seq<Out>): map<string, int> {
    if log == [] then budgets
    else
      var last, before := log[|log| - 1], Spent(budgets, log[..|log| - 1]);
      if last.ByBudget? then Spend(before, last.command) else before
  }

  /** No command was released on a budget that was used up. */
  predicate SpentWell(budgets: map<string, int>, log: seq<Out>) {
    log == [] ||
    (SpentWell(budgets, log[..|log| - 1]) &&
     (log[|log| - 1].ByBudget? ==> HasBudget(Spent(budgets, log[..|log| - 1]), log[|log| - 1].command)))
  }

  lemma {:induction false} OneMoreSpent(budgets: map<string, int>, log: seq<Out>, next: Out)
    ensures Spent(budgets, log + [next]) == if next.ByBudget? then Spend(Spent(budgets, log), next.command) else Spent(budgets, log)
    ensures SpentWell(budgets, log + [next]) <==>
              SpentWell(budgets, log) && (next.ByBudget? ==> HasBudget(Spent(budgets, log), next.command))
  {
    assert (log + [next])[..|log|] == log;
  }

  lemma {:induction false} OneMoreOut(log: seq<Out>, next: Out)
    ensures Governed(log + [next]) == if next.ByRate? then Governed(log) + [next.release] else Governed(log)
    ensures OnBudget(log + [next]) == OnBudget(log) + if next.ByBudget? then 1 else 0
  {
    assert (log + [next])[..|log|] == log;
  }

  // ---------------------------------------------------------------- the code

  datatype FakelagState = Bursting | Throttled

  class Fakelag {
    const config: Config
    const configured: bool                 // Enabled, as it was initialized
    var enabled: bool
    var suspended: bool
    var commandBudgets: map<string, int>
    var state: FakelagState
    var burstCount: nat
    var lastTouch: Option<int>             // None is the zero time, very far in the past
    ghost const budgets: map<string, int>  // at first
    ghost var log: seq<Out>

    ghost predicate Valid()
      reads this
    {
      && (suspended ==> !enabled) && (enabled || suspended <==> configured)
      && WellSpaced(config, Governed(log)) && InOrder(log)
      && commandBudgets == Spent(budgets, log) && SpentWell(budgets, log)
      && Follows(Last(Governed(log))) && (lastTouch.Some? ==> log != [] && lastTouch.value <= TimeOf(log[|log| - 1]))
    }

    /** The two states stand for what the last governed command was. */
    predicate Follows(last: Option<Release>)
      reads this
    {
      match last
      case None => lastTouch == None && state == Bursting && burstCount == 0
      case Some(Release(time, Burst(k))) => lastTouch == Some(time) && state == Bursting && burstCount == k
      case Some(Release(time, Spaced)) => lastTouch == Some(time) && state == Throttled && burstCount == 0
    }

    constructor (config: Config, enabled: bool, commandBudgets: map<string, int>)
      ensures Valid() && log == [] && budgets == commandBudgets
      ensures this.config == config && this.commandBudgets == commandBudgets && this.enabled == configured == enabled
    {
      this.config, this.configured, this.commandBudgets := config, enabled, commandBudgets;
      this.enabled, suspended := enabled, false;
      state, burstCount, lastTouch := Bursting, 0, None;
      budgets, log := commandBudgets, [];
    }

    /** Never suspended so far, with `clock` not before the last release. */
    ghost predicate Running(config: Config, budgets: map<string, int>, clock: int)
      reads this
    {
      && Valid() && enabled && this.config == config && this.budgets == budgets && NoneFree(log)
      && (log != [] ==> TimeOf(log[|log| - 1]) <= clock)
    }

    method Suspend()
      requires Valid()
      modifies this`enabled, this`suspended
      ensures Valid() && !enabled
    {
      if enabled {
        suspended := true;
        enabled := false;
      }
    }

    method Unsuspend()
      requires Valid()
      modifies this`enabled, this`suspended
      ensures Valid() && enabled == configured && !suspended
    {
      if suspended {
        enabled := true;
        suspended := false;
      }
    }

    /** A command comes at `now` and is released at `released`. */
    method Touch(command: string, now: int, late: nat) returns (released: int)
      requires Valid() && (log != [] ==> TimeOf(log[|log| - 1]) <= now)
      modifies this`commandBudgets, this`state, this`burstCount, this`lastTouch, this`log
      ensures Valid()
      ensures log == old(log) + [if !enabled then ByNothing(now)
                                 else if HasBudget(old(commandBudgets), command) then ByBudget(now, command)
                                 else ByRate(NextRelease(config, Last(Governed(old(log))), now, late))]
      ensures released == TimeOf(log[|log| - 1]) >= now
    {
      if enabled {
        released := TouchEnabled(command, now, late);
      } else {
        LetThrough(now);
        released := now;
      }
    }

    method TouchEnabled(command: string, now: int, late: nat) returns (released: int)
      requires Valid() && (log != [] ==> TimeOf(log[|log| - 1]) <= now)
      modifies this`commandBudgets, this`state, this`burstCount, this`lastTouch, this`log
      ensures Valid()
      ensures log == old(log) + [if HasBudget(old(commandBudgets), command) then ByBudget(now, command)
                                 else ByRate(NextRelease(config, Last(Governed(old(log))), now, late))]
      ensures released == TimeOf(log[|log| - 1]) >= now
    {
      if HasBudget(commandBudgets, command) {
        SpendBudget(command, now);
        released := now;
      } else {
        released := TouchGoverned(now, late);
      }
    }

    ghost method LetThrough(now: int)
      requires Valid() && (log != [] ==> TimeOf(log[|log| - 1]) <= now)
      modifies this`log
      ensures Valid() && log == old(log) + [ByNothing(now)]
    {
      Logged(ByNothing(now));
    }

    method SpendBudget(command: string, ghost now: int)
      requires Valid() && HasBudget(commandBudgets, command) && (log != [] ==> TimeOf(log[|log| - 1]) <= now)
      modifies this`commandBudgets, this`log
      ensures Valid() && log == old(log) + [ByBudget(now, command)]
      ensures commandBudgets == old(commandBudgets)[command := old(commandBudgets)[command] - 1]
    {
      commandBudgets := commandBudgets[command := commandBudgets[command] - 1];
      Logged(ByBudget(now, command));
    }

    ghost method Logged(out: Out)
      requires InOrder(log) && (log != [] ==> TimeOf(log[|log| - 1]) <= TimeOf(out))
      requires SpentWell(budgets, log) && (out.ByBudget? ==> HasBudget(Spent(budgets, log), out.command))
      modifies this`log
      ensures log == old(log) + [out] && InOrder(log) && SpentWell(budgets, log)
      ensures Spent(budgets, log) == if out.ByBudget? then Spend(Spent(budgets, old(log)), out.command) else Spent(budgets, old(log))
      ensures Governed(log) == if out.ByRate? then Governed(old(log)) + [out.release] else Governed(old(log))
    {
      OneMoreOut(log, out);
      OneMoreSpent(budgets, log, out);
      log := log + [out];
    }

    /** The part of Touch after the command budgets. */
    method TouchGoverned(now: int, late: nat) returns (released: int)
      requires Valid() && (log != [] ==> TimeOf(log[|log| - 1]) <= now)
      modifies this`lastTouch, this`state, this`burstCount, this`log
      ensures Valid() && log == old(log) + [ByRate(NextRelease(config, Last(Governed(old(log))), now, late))]
      ensures released == TimeOf(log[|log| - 1]) >= now
    {
      ghost var next := NextRelease(config, Last(Governed(log)), now, late);
      NextFollowsWell(config, Governed(log), now, late);
      released := Decide(now, late);
      Logged(ByRate(next));
      LastAfter(Governed(old(log)), next);
    }

    /** The two-state machine. */
    method Decide(now: int, late: nat) returns (released: int)
      requires Valid() && (log != [] ==> TimeOf(log[|log| - 1]) <= now)
      modifies this`lastTouch, this`state, this`burstCount
      ensures var next := NextRelease(config, Last(Governed(log)), now, late);
              && released == next.time && lastTouch == Some(released)
              && state == (if next.kind.Burst? then Bursting else Throttled)
              && burstCount == (if next.kind.Burst? then next.kind.k else 0)
    {
      var elapsed := if lastTouch.Some? then now - lastTouch.value else config.cooldown + 1;
      lastTouch := Some(now);
      if state == Bursting {
        if elapsed > config.cooldown {
          burstCount := 0;
        }
        burstCount := burstCount + 1;
        if burstCount > config.burstLimit {
          // this command is the first one to be throttled
          burstCount := 0;
          state := Throttled;
        } else {
          return now;
        }
      }
      if elapsed > config.cooldown {
        state := Bursting;
        burstCount := 1;
        return now;
      }
      var sleepDuration;
      if config.messagesPerWindow > 0 {
        sleepDuration := config.window / config.messagesPerWindow - elapsed;
      } else {
        // nothing is released but bursts, so this command waits to start one
        sleepDuration := config.cooldown - elapsed;
        state := Bursting;
        burstCount := 1;
      }
      released := now;
      if sleepDuration > 0 {
        released := now + sleepDuration + late;
        // the command is released only now
        lastTouch := Some(released);
      }
    }
  }

  // ---------------------------------------------------------------- the rate bound

  /** Bursts that start among the releases after the first. */
  function Starts(releases: seq<Release>): nat {
    if |releases| <= 1 then 0
    else Starts(releases[..|releases| - 1]) + if releases[|releases| - 1].kind == Burst(1) then 1 else 0
  }

  /** Spaced commands among the releases after the first. */
  function SpacedCount(releases: seq<Release>): nat {
    if |releases| <= 1 then 0
    else SpacedCount(releases[..|releases| - 1]) + if releases[|releases| - 1].kind == Spaced then 1 else 0
  }

  predicate Consecutive(config: Config, releases: seq<Release>) {
    && (forall i :: 0 < i < |releases| ==> FollowsAt(config, releases, i))
    && (releases != [] && releases[0].kind.Burst? ==> 1 <= releases[0].kind.k <= Max(config.burstLimit, 1))
  }

  lemma {:induction false} ConsecutiveStart(config: Config, window: seq<Release>)
    requires Consecutive(config, window) && window != []
    ensures Consecutive(config, window[..|window| - 1])
  {
    var before := window[..|window| - 1];
    forall i | 0 < i < |before| ensures FollowsAt(config, before, i) {
      assert FollowsAt(config, window, i);
    }
  }

  /** How long it takes to release a number of commands. */
  lemma {:induction false} WindowTakesTime(config: Config, window: seq<Release>)
    requires Consecutive(config, window) && window != []
    ensures config.messagesPerWindow == 0 ==> SpacedCount(window) == 0
    ensures Starts(window) * config.cooldown + SpacedTime(config, SpacedCount(window)) <= window[|window| - 1].time - window[0].time
    decreases |window|
  {
    var n := |window|;
    if n > 1 {
      var before := window[..n - 1];
      ConsecutiveStart(config, window);
      WindowTakesTime(config, before);
      assert FollowsAt(config, window, n - 1);
      assert (Starts(before) + 1) * config.cooldown == Starts(before) * config.cooldown + config.cooldown;
      OneMoreSpaced(config, SpacedCount(before));
    }
  }

  function SpacedTime(config: Config, spaced: nat): int {
    if config.messagesPerWindow > 0 then spaced * Spacing(config) else 0
  }

  lemma {:induction false} OneMoreSpaced(config: Config, spaced: nat)
    ensures config.messagesPerWindow > 0 ==> SpacedTime(config, spaced + 1) == SpacedTime(config, spaced) + Spacing(config)
  {
    if config.messagesPerWindow > 0 {
      assert (spaced + 1) * Spacing(config) == spaced * Spacing(config) + Spacing(config);
    }
  }

  /** How many commands are released in so many bursts. */
  lemma {:induction false} WindowHoldsFew(config: Config, window: seq<Release>)
    requires Consecutive(config, window) && window != []
    ensures var n, limit := |window|, Max(config.burstLimit, 1);
            n <= Starts(window) * limit + SpacedCount(window) + (if window[0].kind.Spaced? then 1 else 0) +
                 (if window[n - 1].kind.Burst? then window[n - 1].kind.k else limit)
    decreases |window|
  {
    var n, limit := |window|, Max(config.burstLimit, 1);
    if n > 1 {
      var before := window[..n - 1];
      ConsecutiveStart(config, window);
      WindowHoldsFew(config, before);
      assert FollowsAt(config, window, n - 1);
      assert (Starts(before) + 1) * limit == Starts(before) * limit + limit;
      if n > 2 && window[n - 2].kind.Burst? {
        assert FollowsAt(config, window, n - 2);
      }
    }
  }

  lemma {:induction false} Monotone(a: nat, b: nat, factor: nat)
    requires a <= b
    ensures a * factor <= b * factor
  {
    assert (b - a) * factor == b * factor - a * factor;
  }

  lemma {:induction false} AtMostQuotient(count: nat, each: nat, total: int)
    requires each > 0 && count * each <= total
    ensures count <= total / each
  {
    var quotient := total / each;
    assert total < (quotient + 1) * each;
    if quotient + 1 <= count {
      Monotone(quotient + 1, count, each);
      assert false;
    }
  }

  lemma {:induction false} ConsecutivePart(config: Config, releases: seq<Release>, i: nat, j: nat)
    requires WellSpaced(config, releases) && i < j <= |releases|
    ensures Consecutive(config, releases[i..j])
  {
    var window := releases[i..j];
    forall k | 0 < k < |window| ensures FollowsAt(config, window, k) {
      assert FollowsAt(config, releases, i + k);
    }
    assert FollowsAt(config, releases, i);
  }

  /** The commands released in any interval of the given length number at most
      max(BurstLimit, 1) * (1 + length / Cooldown) + length / (Window / MessagesPerWindow) + 1,
      and without throttled messages at most max(BurstLimit, 1) * (1 + length / Cooldown). */
  lemma {:induction false} RateBound(config: Config, releases: seq<Release>, i: nat, j: nat, length: nat)
    requires WellSpaced(config, releases) && i < j <= |releases|
    requires releases[j - 1].time - releases[i].time <= length
    requires config.cooldown > 0 && (config.messagesPerWindow > 0 ==> Spacing(config) > 0)
    ensures j - i <= Max(config.burstLimit, 1) * (1 + length / config.cooldown) +
                     if config.messagesPerWindow > 0 then length / Spacing(config) + 1 else 0
  {
    var window, limit := releases[i..j], Max(config.burstLimit, 1);
    ConsecutivePart(config, releases, i, j);
    WindowTakesTime(config, window);
    WindowHoldsFew(config, window);
    if releases[j - 1].kind.Burst? {
      LastBurstFits(config, releases, j - 1);
    }
    if config.messagesPerWindow > 0 {
      BoundOfSpaced(j - i, limit, Starts(window), SpacedCount(window), config.cooldown, Spacing(config), length);
    } else {
      FirstIsNotSpaced(config, releases, i);
      BoundOfBursts(j - i, limit, Starts(window), config.cooldown, length);
    }
  }

  lemma {:induction false} BoundOfBursts(n: nat, limit: nat, starts: nat, cooldown: nat, length: nat)
    requires cooldown > 0 && starts * cooldown <= length && n <= starts * limit + limit
    ensures n <= limit * (1 + length / cooldown)
  {
    AtMostQuotient(starts, cooldown, length);
    Monotone(starts, length / cooldown, limit);
    assert limit * (1 + length / cooldown) == limit + length / cooldown * limit;
  }

  lemma {:induction false} BoundOfSpaced(n: nat, limit: nat, starts: nat, spaced: nat, cooldown: nat, spacing: nat, length: nat)
    requires cooldown > 0 && spacing > 0
    requires starts * cooldown + spaced * spacing <= length && n <= starts * limit + spaced + 1 + limit
    ensures n <= limit * (1 + length / cooldown) + length / spacing + 1
  {
    Monotone(0, starts, cooldown);
    Monotone(0, spaced, spacing);
    AtMostQuotient(spaced, spacing, length);
    BoundOfBursts(starts * limit + limit, limit, starts, cooldown, length) by {
      Monotone(0, starts, limit);
    }
  }

  lemma {:induction false} FirstIsNotSpaced(config: Config, releases: seq<Release>, i: nat)
    requires WellSpaced(config, releases) && i < |releases| && config.messagesPerWindow == 0
    ensures releases[i].kind.Burst?
  {
    assert FollowsAt(config, releases, i);
  }

  lemma {:induction false} LastBurstFits(config: Config, releases: seq<Release>, i: nat)
    requires WellSpaced(config, releases) && i < |releases| && releases[i].kind.Burst?
    ensures releases[i].kind.k <= Max(config.burstLimit, 1)
  {
    assert FollowsAt(config, releases, i);
  }

  // ---------------------------------------------------------------- command budgets

  /** How many more commands the budgets can release. */
  ghost function BudgetLeft(budgets: map<string, int>): nat {
    if budgets == map[] then 0
    else
      var command :| command in budgets;
      BudgetLeft(budgets - {command}) + if budgets[command] > 0 then budgets[command] else 0
  }

  lemma {:induction false} BudgetWithout(budgets: map<string, int>, command: string)
    requires command in budgets
    ensures BudgetLeft(budgets) == BudgetLeft(budgets - {command}) + if budgets[command] > 0 then budgets[command] else 0
    decreases |budgets|
  {
    var first :| first in budgets && BudgetLeft(budgets) == BudgetLeft(budgets - {first}) + if budgets[first] > 0 then budgets[first] else 0;
    if first != command {
      BudgetWithout(budgets - {first}, command);
      BudgetWithout(budgets - {command}, first);
      assert budgets - {first} - {command} == budgets - {command} - {first};
    }
  }

  /** Budgets left and commands released on them add up to what there was. */
  lemma {:induction false} BudgetsAddUp(budgets: map<string, int>, log: seq<Out>)
    requires SpentWell(budgets, log)
    ensures OnBudget(log) + BudgetLeft(Spent(budgets, log)) == BudgetLeft(budgets)
    decreases |log|
  {
    if log != [] {
      var before, last := log[..|log| - 1], log[|log| - 1];
      BudgetsAddUp(budgets, before);
      if last.ByBudget? {
        SpendingLeavesLess(Spent(budgets, before), last.command);
      }
    }
  }

  lemma {:induction false} SpendingLeavesLess(budgets: map<string, int>, command: string)
    requires command in budgets && budgets[command] > 0
    ensures BudgetLeft(budgets[command := budgets[command] - 1]) == BudgetLeft(budgets) - 1
  {
    var spent := budgets[command := budgets[command] - 1];
    BudgetWithout(budgets, command);
    BudgetWithout(spent, command);
    assert spent - {command} == budgets - {command};
  }

  // ---------------------------------------------------------------- any interval

  /** What fakelag governs of an interval. */
  lemma {:induction false} GovernedPart(log: seq<Out>, i: nat, j: nat)
    requires i <= j <= |log| && forall k :: i <= k < j ==> !log[k].ByNothing?
    ensures Governed(log[..i]) <= Governed(log[..j]) && OnBudget(log[..i]) <= OnBudget(log[..j])
    ensures j - i == |Governed(log[..j])| - |Governed(log[..i])| + OnBudget(log[..j]) - OnBudget(log[..i])
    decreases j
  {
    if i < j {
      GovernedPart(log, i, j - 1);
      assert log[..j] == log[..j - 1] + [log[j - 1]];
      OneMoreOut(log[..j - 1], log[j - 1]);
    }
  }

  lemma {:induction false} GovernedTimes(log: seq<Out>, i: nat, j: nat, k: nat)
    requires i <= j <= |log| && InOrder(log) && |Governed(log[..i])| <= k < |Governed(log[..j])|
    ensures i < j && TimeOf(log[i]) <= Governed(log[..j])[k].time <= TimeOf(log[j - 1])
    decreases j
  {
    if i < j {
      assert log[..j] == log[..j - 1] + [log[j - 1]];
      OneMoreOut(log[..j - 1], log[j - 1]);
      if k < |Governed(log[..j - 1])| {
        GovernedTimes(log, i, j - 1, k);
      }
    }
  }

  lemma {:induction false} GovernedIsPrefix(log: seq<Out>, j: nat)
    requires j <= |log|
    ensures Governed(log[..j]) <= Governed(log) && OnBudget(log[..j]) <= OnBudget(log)
    decreases |log| - j
  {
    if j == |log| {
      assert log[..j] == log;
    } else {
      GovernedIsPrefix(log, j + 1);
      assert log[..j + 1] == log[..j] + [log[j]];
      OneMoreOut(log[..j], log[j]);
    }
  }

  /** What fakelag lets through in any interval of the given length. */
  function Bound(config: Config, length: nat): nat
    requires config.cooldown > 0 && (config.messagesPerWindow > 0 ==> Spacing(config) > 0)
  {
    var bursts := Max(config.burstLimit, 1) * (1 + length / config.cooldown);
    (if bursts >= 0 then bursts else 0) + if config.messagesPerWindow > 0 then length / Spacing(config) + 1 else 0
  }

  /** The governed releases with these indices are in the interval. */
  predicate AreWithin(releases: seq<Release>, first: nat, end: nat, from: int, to: int) {
    end <= |releases| && forall k :: first <= k < end ==> from <= releases[k].time <= to
  }

  lemma {:induction false} GovernedWithin(log: seq<Out>, i: nat, j: nat)
    requires i < j <= |log| && InOrder(log) && forall k :: i <= k < j ==> !log[k].ByNothing?
    ensures AreWithin(Governed(log), |Governed(log[..i])|, |Governed(log[..j])|, TimeOf(log[i]), TimeOf(log[j - 1]))
    ensures OnBudget(log[..i]) <= OnBudget(log[..j]) <= OnBudget(log)
    ensures j - i == |Governed(log[..j])| - |Governed(log[..i])| + OnBudget(log[..j]) - OnBudget(log[..i])
  {
    GovernedPart(log, i, j);
    GovernedIsPrefix(log, j);
    forall k | |Governed(log[..i])| <= k < |Governed(log[..j])|
      ensures TimeOf(log[i]) <= Governed(log)[k].time <= TimeOf(log[j - 1])
    {
      GovernedTimes(log, i, j, k);
      assert Governed(log)[k] == Governed(log[..j])[k];
    }
  }

  lemma {:induction false} GovernedBound(config: Config, releases: seq<Release>, first: nat, end: nat, from: int, to: int, length: nat)
    requires WellSpaced(config, releases) && AreWithin(releases, first, end, from, to) && to - from <= length
    requires config.cooldown > 0 && (config.messagesPerWindow > 0 ==> Spacing(config) > 0)
    ensures end - first <= Bound(config, length)
  {
    if first < end {
      RateBound(config, releases, first, end, length);
    }
  }

  /** All commands released in any interval of the given length number at most what fakelag lets through
      plus what was released on budgets in it, if fakelag was not off. */
  lemma {:induction false} IntervalBound(config: Config, log: seq<Out>, i: nat, j: nat, length: nat)
    requires WellSpaced(config, Governed(log)) && InOrder(log) && i < j <= |log|
    requires TimeOf(log[j - 1]) - TimeOf(log[i]) <= length && forall k :: i <= k < j ==> !log[k].ByNothing?
    requires config.cooldown > 0 && (config.messagesPerWindow > 0 ==> Spacing(config) > 0)
    ensures OnBudget(log[..i]) <= OnBudget(log[..j]) <= OnBudget(log)
    ensures j - i <= Bound(config, length) + OnBudget(log[..j]) - OnBudget(log[..i])
  {
    GovernedWithin(log, i, j);
    GovernedBound(config, Governed(log), |Governed(log[..i])|, |Governed(log[..j])|, TimeOf(log[i]), TimeOf(log[j - 1]), length);
  }

  predicate IsInterval(times: seq<int>, i: nat, j: nat, length: nat) {
    i < j <= |times| && times[j - 1] - times[i] <= length
  }

  /** The bound for every interval, with what the budgets had left when it began. */
  ghost predicate IsBounded(config: Config, times: seq<int>, left: seq<nat>)
    requires config.cooldown > 0 && (config.messagesPerWindow > 0 ==> Spacing(config) > 0)
    requires |times| == |left|
  {
    forall i: nat, j: nat, length: nat :: IsInterval(times, i, j, length) ==> j - i <= Bound(config, length) + left[i]
  }

  function Times(log: seq<Out>): seq<int> {
    seq(|log|, k requires 0 <= k < |log| => TimeOf(log[k]))
  }

  /** What the budgets could still release before each command. */
  ghost function BudgetsLeft(log: seq<Out>, budget: nat): seq<nat>
    requires forall k :: 0 <= k <= |log| ==> OnBudget(log[..k]) <= budget
  {
    seq(|log|, k requires 0 <= k < |log| => budget - OnBudget(log[..k]))
  }

  predicate NoneFree(log: seq<Out>) {
    forall k :: 0 <= k < |log| ==> !log[k].ByNothing?
  }

  lemma {:induction false} BudgetsLast(log: seq<Out>, budget: nat)
    requires OnBudget(log) <= budget
    ensures forall k :: 0 <= k <= |log| ==> OnBudget(log[..k]) <= budget
  {
    forall k | 0 <= k <= |log| ensures OnBudget(log[..k]) <= budget { GovernedIsPrefix(log, k); }
  }

  lemma {:induction false} OneInterval(config: Config, log: seq<Out>, budget: nat, i: nat, j: nat, length: nat)
    requires config.cooldown > 0 && (config.messagesPerWindow > 0 ==> Spacing(config) > 0)
    requires WellSpaced(config, Governed(log)) && InOrder(log) && OnBudget(log) <= budget && NoneFree(log)
    requires IsInterval(Times(log), i, j, length)
    ensures OnBudget(log[..i]) <= budget && j - i <= Bound(config, length) + budget - OnBudget(log[..i])
  {
    IntervalBound(config, log, i, j, length);
  }

  lemma {:induction false} LogIsBounded(config: Config, log: seq<Out>, budget: nat)
    requires config.cooldown > 0 && (config.messagesPerWindow > 0 ==> Spacing(config) > 0)
    requires WellSpaced(config, Governed(log)) && InOrder(log) && OnBudget(log) <= budget && NoneFree(log)
    ensures forall k :: 0 <= k <= |log| ==> OnBudget(log[..k]) <= budget
    ensures IsBounded(config, Times(log), BudgetsLeft(log, budget))
  {
    BudgetsLast(log, budget);
    forall i: nat, j: nat, length: nat | IsInterval(Times(log), i, j, length)
      ensures j - i <= Bound(config, length) + BudgetsLeft(log, budget)[i]
    {
      OneInterval(config, log, budget, i, j, length);
    }
  }

  /** A command that comes some time after the previous one was released. */
  datatype Arrival = Arrival(command: string, wait: nat, late: nat)

  /** When the n-th command comes. */
  function ArrivesAt(start: int, arrivals: seq<Arrival>, log: seq<Out>, n: nat): int
    requires n < |arrivals| && n <= |log|
  {
    (if n == 0 then start else TimeOf(log[n - 1])) + arrivals[n].wait
  }

  /** What becomes of a command after those of the log: it is released at once on its budget, if there is
      something left of that, and otherwise as the last governed command demands. */
  function Outcome(config: Config, budgets: map<string, int>, log: seq<Out>, arrival: Arrival, now: int): Out {
    if HasBudget(Spent(budgets, log), arrival.command) then ByBudget(now, arrival.command)
    else ByRate(NextRelease(config, Last(Governed(log)), now, arrival.late))
  }

  predicate HasOutcome(config: Config, budgets: map<string, int>, start: int, arrivals: seq<Arrival>, log: seq<Out>, n: nat)
    requires n < |log| <= |arrivals|
  {
    && log[n] == Outcome(config, budgets, log[..n], arrivals[n], ArrivesAt(start, arrivals, log, n))
    && TimeOf(log[n]) >= ArrivesAt(start, arrivals, log, n)
  }

  predicate HaveOutcomes(config: Config, budgets: map<string, int>, start: int, arrivals: seq<Arrival>, log: seq<Out>) {
    |log| <= |arrivals| && forall n :: 0 <= n < |log| ==> HasOutcome(config, budgets, start, arrivals, log, n)
  }

  // ---------------------------------------------------------------- no needless delay

  /** How many governed commands there were since the last one that came more than a cooldown after the one
      before it. */
  ghost function SinceGap(config: Config, start: int, arrivals: seq<Arrival>, log: seq<Out>, n: nat): nat
    requires n <= |log| <= |arrivals|
  {
    if n == 0 then 0
    else
      var before, last := SinceGap(config, start, arrivals, log, n - 1), Last(Governed(log[..n - 1]));
      if !log[n - 1].ByRate? then before
      else if last.None? || ArrivesAt(start, arrivals, log, n - 1) - last.value.time > config.cooldown then 1
      else before + 1
  }

  /** The numbers of the burst do not run ahead of that count, and nothing is spaced before the burst is over. */
  lemma {:induction false} BurstIsCounted(config: Config, budgets: map<string, int>, start: int, arrivals: seq<Arrival>, log: seq<Out>, n: nat)
    requires HaveOutcomes(config, budgets, start, arrivals, log) && n <= |log|
    ensures var count, last := SinceGap(config, start, arrivals, log, n), Last(Governed(log[..n]));
            && (last.None? ==> count == 0)
            && (last.Some? && last.value.kind.Burst? ==>
                  last.value.kind.k <= count && (config.messagesPerWindow > 0 ==> last.value.kind.k == count))
            && (last.Some? && last.value.kind.Spaced? ==> count > config.burstLimit)
            && count <= |Governed(log[..n])|
    decreases n
  {
    if n > 0 {
      BurstIsCounted(config, budgets, start, arrivals, log, n - 1);
      assert HasOutcome(config, budgets, start, arrivals, log, n - 1);
      assert log[..n] == log[..n - 1] + [log[n - 1]];
      OneMoreOut(log[..n - 1], log[n - 1]);
    }
  }

  /** A governed command is released when it comes, if it is the first one, or comes more than a cooldown after
      the last one, or fewer than BurstLimit have come since such a gap. No command waits longer than for the
      spacing after the last one or, if all messages are bursts, for the cooldown; and when the burst is over
      every command waits for the spacing. */
  predicate IsPrompt(config: Config, start: int, arrivals: seq<Arrival>, log: seq<Out>, n: nat, count: nat)
    requires n < |log| <= |arrivals|
  {
    var now, last := ArrivesAt(start, arrivals, log, n), Last(Governed(log[..n]));
    && (!log[n].ByRate? || last.None? || now - last.value.time > config.cooldown || count < config.burstLimit ==> TimeOf(log[n]) == now)
    && (last.Some? ==>
          var from := last.value.time + if config.messagesPerWindow > 0 then config.window / config.messagesPerWindow else config.cooldown;
          && (TimeOf(log[n]) == now || (now < from && TimeOf(log[n]) == from + arrivals[n].late))
          && (config.messagesPerWindow > 0 && log[n].ByRate? && now - last.value.time <= config.cooldown && count >= config.burstLimit ==>
                TimeOf(log[n]) == if now < from then from + arrivals[n].late else now))
  }

  lemma {:induction false} CommandIsPrompt(config: Config, budgets: map<string, int>, start: int, arrivals: seq<Arrival>, log: seq<Out>, n: nat)
    requires HaveOutcomes(config, budgets, start, arrivals, log) && n < |log|
    ensures IsPrompt(config, start, arrivals, log, n, SinceGap(config, start, arrivals, log, n))
  {
    BurstIsCounted(config, budgets, start, arrivals, log, n);
    assert HasOutcome(config, budgets, start, arrivals, log, n);
  }

  /** In particular the first max(BurstLimit, 1) governed commands of all are released when they come. */
  lemma {:induction false} FirstBurstIsPrompt(config: Config, budgets: map<string, int>, start: int, arrivals: seq<Arrival>, log: seq<Out>, n: nat)
    requires HaveOutcomes(config, budgets, start, arrivals, log) && n < |log|
    requires |Governed(log[..n])| < Max(config.burstLimit, 1)
    ensures TimeOf(log[n]) == ArrivesAt(start, arrivals, log, n)
  {
    BurstIsCounted(config, budgets, start, arrivals, log, n);
    CommandIsPrompt(config, budgets, start, arrivals, log, n);
    assert |Governed(log[..n])| == 0 ==> Last(Governed(log[..n])).None?;
  }

  function OnBudgetOf(log: seq<Out>, command: string): nat {
    if log == [] then 0
    else OnBudgetOf(log[..|log| - 1], command) + if log[|log| - 1].ByBudget? && log[|log| - 1].command == command then 1 else 0
  }

  lemma {:induction false} SpentIsCounted(budgets: map<string, int>, log: seq<Out>, command: string)
    requires SpentWell(budgets, log)
    ensures Spent(budgets, log).Keys == budgets.Keys
    ensures command in budgets ==> Spent(budgets, log)[command] == budgets[command] - OnBudgetOf(log, command)
    decreases |log|
  {
    if log != [] {
      SpentIsCounted(budgets, log[..|log| - 1], command);
    }
  }

  /** A command is released on its budget exactly as often as that says, and first of all. */
  lemma {:induction false} BudgetIsUsed(config: Config, budgets: map<string, int>, start: int, arrivals: seq<Arrival>, log: seq<Out>, n: nat)
    requires HaveOutcomes(config, budgets, start, arrivals, log) && n < |log| && SpentWell(budgets, log[..n])
    ensures var command := arrivals[n].command;
            && !log[n].ByNothing?
            && (log[n].ByBudget? <==> command in budgets && OnBudgetOf(log[..n], command) < budgets[command])
            && (log[n].ByBudget? ==> log[n].command == command)
  {
    SpentIsCounted(budgets, log[..n], arrivals[n].command);
    assert HasOutcome(config, budgets, start, arrivals, log, n);
  }

  lemma {:induction false} StartIsSpentWell(budgets: map<string, int>, log: seq<Out>, n: nat)
    requires SpentWell(budgets, log) && n <= |log|
    ensures SpentWell(budgets, log[..n])
    decreases |log| - n
  {
    if n < |log| {
      StartIsSpentWell(budgets, log, n + 1);
      assert log[..n + 1][..n] == log[..n];
    } else {
      assert log[..n] == log;
    }
  }

  /** Any sequence of commands without suspension. The commands released in any interval of any length number
      at most max(BurstLimit, 1) * (1 + length / Cooldown) + length / (Window / MessagesPerWindow) + 1 plus what
      is left of the budgets when the interval begins, which is what they were less what was released on them. */
  method TouchAll(config: Config, budgets: map<string, int>, start: int, arrivals: seq<Arrival>)
    returns (times: seq<int>, ghost log: seq<Out>)
    requires config.cooldown > 0 && (config.messagesPerWindow > 0 ==> Spacing(config) > 0)
    ensures |log| == |arrivals| && times == Times(log)
    ensures HaveOutcomes(config, budgets, start, arrivals, log) && SpentWell(budgets, log)
    ensures forall n :: 0 <= n < |log| ==> IsPrompt(config, start, arrivals, log, n, SinceGap(config, start, arrivals, log, n))
    ensures forall k :: 0 <= k <= |log| ==> OnBudget(log[..k]) <= BudgetLeft(budgets)
    ensures IsBounded(config, times, BudgetsLeft(log, BudgetLeft(budgets)))
  {
    var fl := new Fakelag(config, true, budgets);
    times := [];
    for n := 0 to |arrivals|
      invariant |fl.log| == n && times == Times(fl.log)
      invariant fl.Running(config, budgets, if n == 0 then start else times[n - 1])
      invariant HaveOutcomes(config, budgets, start, arrivals, fl.log)
    {
      var released := TouchNext(fl, start, arrivals, n, if n == 0 then start else times[n - 1]);
      times := times + [released];
    }
    log := fl.log;
    RunningIsBounded(fl, config, budgets, if log == [] then start else TimeOf(log[|log| - 1]));
    forall n | 0 <= n < |log| { CommandIsPrompt(config, budgets, start, arrivals, log, n); }
  }

  method TouchNext(fl: Fakelag, ghost start: int, arrivals: seq<Arrival>, n: nat, clock: int) returns (released: int)
    requires fl.Running(fl.config, fl.budgets, clock) && |fl.log| == n < |arrivals|
    requires HaveOutcomes(fl.config, fl.budgets, start, arrivals, fl.log)
    requires clock == if fl.log == [] then start else TimeOf(fl.log[|fl.log| - 1])
    modifies fl
    ensures fl.Running(fl.config, fl.budgets, released) && |fl.log| == n + 1
    ensures HaveOutcomes(fl.config, fl.budgets, start, arrivals, fl.log)
    ensures Times(fl.log) == Times(old(fl.log)) + [released]
  {
    ghost var before := fl.log;
    released := fl.Touch(arrivals[n].command, clock + arrivals[n].wait, arrivals[n].late);
    ghost var out := fl.log[n];
    OneMoreTime(before, out);
    OneMoreOutcome(fl.config, fl.budgets, start, arrivals, before, out);
  }

  lemma {:induction false} RunningIsBounded(fl: Fakelag, config: Config, budgets: map<string, int>, clock: int)
    requires config.cooldown > 0 && (config.messagesPerWindow > 0 ==> Spacing(config) > 0)
    requires fl.Running(config, budgets, clock)
    ensures SpentWell(budgets, fl.log)
    ensures forall k :: 0 <= k <= |fl.log| ==> OnBudget(fl.log[..k]) <= BudgetLeft(budgets)
    ensures IsBounded(config, Times(fl.log), BudgetsLeft(fl.log, BudgetLeft(budgets)))
  {
    BudgetsAddUp(budgets, fl.log);
    LogIsBounded(config, fl.log, BudgetLeft(budgets));
  }

  lemma {:induction false} OneMoreOutcome(config: Config, budgets: map<string, int>, start: int, arrivals: seq<Arrival>, log: seq<Out>, out: Out)
    requires HaveOutcomes(config, budgets, start, arrivals, log) && |log| < |arrivals|
    requires out == Outcome(config, budgets, log, arrivals[|log|], ArrivesAt(start, arrivals, log, |log|))
    requires TimeOf(out) >= ArrivesAt(start, arrivals, log, |log|)
    ensures HaveOutcomes(config, budgets, start, arrivals, log + [out])
  {
    forall n | 0 <= n < |log + [out]| ensures HasOutcome(config, budgets, start, arrivals, log + [out], n) {
      assert (log + [out])[..n] == log[..n] && log[..|log|] == log;
      if n < |log| { assert HasOutcome(config, budgets, start, arrivals, log, n); }
    }
  }

  lemma {:induction false} OneMoreTime(log: seq<Out>, out: Out)
    ensures Times(log + [out]) == Times(log) + [TimeOf(out)]
    ensures NoneFree(log) && !out.ByNothing? ==> NoneFree(log + [out])
  {
  }
}
