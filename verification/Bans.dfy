/** Bans that expire: klines and dlines (irc/kline.go, irc/dline.go) share one protocol.

    Time is an integer. A timer fires when it is due, but its callback may come to run much later, after
    the ban has been removed or replaced. Adding and removing change memory first and the datastore in a
    second step, one of them at a time. The datastore does not fail. */
module Bans {
  import opened Common

  /** The two differ in what they make of a negative duration. */
  datatype Kind = Kline | Dline

  type Key = string

  /** `duration` is 0 for a permanent ban. */
  datatype Ban = Ban(reason: string, requireSASL: bool, created: int, duration: int)

  datatype Timer = Timer(created: int, due: int, fired: bool)

  /** A callback that has started and waits for the lock. */
  datatype Callback = Callback(key: Key, created: int)

  /** Entries and expiration timers of the manager. */
  datatype Memory = Memory(entries: map<Key, Ban>, timers: map<Key, Timer>)

  datatype Record = Record(ban: Ban, expires: Option<int>)

  datatype Saving = NotSaving | Persisting(key: Key, ban: Ban) | Unpersisting(key: Key)

  datatype State = State(clock: int, mem: Memory, callbacks: multiset<Callback>, store: map<Key, Record>, saving: Saving)

  /** Whether negative durations are asked for, which the commands do not rule out. */
  datatype Config = Config(kind: Kind, negatives: bool)

  datatype Action =
    | Tick(to: int)
    | Fire(key: Key)
    | Expire(callback: Callback)
    | Add(key: Key, reason: string, requireSASL: bool, duration: int)
    | Remove(key: Key)
    | Save

  // ---------------------------------------------------------------- critical sections

  function CancelTimer(mem: Memory, key: Key): Memory {
    mem.(timers := mem.timers - {key})
  }

  /** addMaskInternal and addNetworkInternal. */
  function AddInternal(kind: Kind, mem: Memory, key: Key, ban: Ban, now: int): Memory {
    var counts := if kind.Kline? then ban.duration > 0 else ban.duration != 0;
    var timeLeft := if counts then ban.created + ban.duration - now else 0;
    if counts && timeLeft <= 0 then mem
    else
      var added := CancelTimer(mem.(entries := mem.entries[key := ban]), key);
      if ban.duration == 0 then added
      else added.(timers := added.timers[key := Timer(ban.created, now + timeLeft, false)])
  }

  /** The expiry callback, which leaves a ban with another creation time alone. */
  function ProcessExpiration(mem: Memory, key: Key, created: int): Memory {
    if key in mem.entries && mem.entries[key].created == created
    then Memory(mem.entries - {key}, mem.timers - {key})
    else mem
  }

  function RemoveEntry(mem: Memory, key: Key): Memory {
    CancelTimer(mem.(entries := mem.entries - {key}), key)
  }

  function ToRecord(ban: Ban, now: int): Record {
    Record(ban, if ban.duration != 0 then Some(now + ban.duration) else None)
  }

  /** Whether a record is still in the datastore, and passes the check of its time left. */
  predicate IsLoaded(kind: Kind, record: Record, now: int) {
    && (record.expires.Some? ==> record.expires.value > now)
    && ((if kind.Kline? then record.ban.duration > 0 else record.ban.duration != 0) ==> record.ban.created + record.ban.duration > now)
  }

  /** The entries of a manager that has loaded the datastore at `now`. */
  function Loaded(kind: Kind, store: map<Key, Record>, now: int): map<Key, Ban> {
    map key | key in store && IsLoaded(kind, store[key], now) :: store[key].ban
  }

  // ---------------------------------------------------------------- what each section changes

  /** A ban that is not over when it is added is there, in place of any other for the same mask, with a timer for
      its end if it has one; one that is over changes nothing. A negative duration is over for a dline, and for a
      kline is one that ends at once. */
  lemma {:induction false} AddOutcome(kind: Kind, mem: Memory, key: Key, ban: Ban, now: int)
    ensures var mem' := AddInternal(kind, mem, key, ban, now);
            var isOver := (ban.duration > 0 || (ban.duration < 0 && kind.Dline?)) && ban.created + ban.duration <= now;
            && (isOver ==> mem' == mem)
            && (!isOver ==>
                  && mem'.entries == mem.entries[key := ban]
                  && (forall other :: other != key ==>
                        (other in mem'.timers <==> other in mem.timers) && (other in mem.timers ==> mem'.timers[other] == mem.timers[other]))
                  && (key in mem'.timers <==> ban.duration != 0)
                  && (ban.duration > 0 ==> mem'.timers[key] == Timer(ban.created, ban.created + ban.duration, false))
                  && (ban.duration < 0 && kind.Kline? ==> mem'.timers[key] == Timer(ban.created, now, false)))
  {
  }

  /** Removal and expiry take the ban and its timer away, expiry only the ban that the callback is for. */
  lemma {:induction false} RemoveOutcome(mem: Memory, key: Key, created: int)
    ensures RemoveEntry(mem, key) == Memory(mem.entries - {key}, mem.timers - {key})
    ensures ProcessExpiration(mem, key, created) ==
            if key in mem.entries && mem.entries[key].created == created then RemoveEntry(mem, key) else mem
  {
  }

  /** A restart has exactly the saved bans that are not over, neither by the time limit of the record nor by
      their own duration. */
  lemma {:induction false} LoadedOutcome(kind: Kind, store: map<Key, Record>, now: int, key: Key)
    ensures key in Loaded(kind, store, now) <==>
            && key in store && (store[key].expires == None || store[key].expires.value > now)
            && (store[key].ban.duration > 0 || (store[key].ban.duration < 0 && kind.Dline?) ==>
                  store[key].ban.created + store[key].ban.duration > now)
    ensures key in Loaded(kind, store, now) ==> Loaded(kind, store, now)[key] == store[key].ban
  {
  }

  // ---------------------------------------------------------------- interleavings

  ghost predicate Enabled(config: Config, s: State, a: Action) {
    match a
    case Tick(to) => to >= s.clock && forall key :: key in s.mem.timers && !s.mem.timers[key].fired ==> s.mem.timers[key].due >= to
    case Fire(key) => key in s.mem.timers && !s.mem.timers[key].fired && s.mem.timers[key].due <= s.clock
    case Expire(callback) => callback in s.callbacks
    case Add(_, _, _, duration) => s.saving.NotSaving? && (duration >= 0 || config.negatives)
    case Remove(_) => s.saving.NotSaving?
    case Save => !s.saving.NotSaving?
  }

  ghost function Next(config: Config, s: State, a: Action): State
    requires Enabled(config, s, a)
  {
    match a
    case Tick(to) => s.(clock := to)
    case Fire(key) =>
      var timer := s.mem.timers[key];
      s.(mem := s.mem.(timers := s.mem.timers[key := timer.(fired := true)]),
         callbacks := s.callbacks + multiset{Callback(key, timer.created)})
    case Expire(callback) =>
      s.(mem := ProcessExpiration(s.mem, callback.key, callback.created), callbacks := s.callbacks - multiset{callback})
    case Add(key, reason, requireSASL, duration) =>
      var ban := Ban(reason, requireSASL, s.clock, duration);
      s.(mem := AddInternal(config.kind, s.mem, key, ban, s.clock), saving := Persisting(key, ban))
    case Remove(key) =>
      s.(mem := RemoveEntry(s.mem, key), saving := if key in s.mem.entries then Unpersisting(key) else NotSaving)
    case Save =>
      s.(store := if s.saving.Persisting? then s.store[s.saving.key := ToRecord(s.saving.ban, s.clock)] else s.store - {s.saving.key},
         saving := NotSaving)
  }

  ghost predicate IsRun(config: Config, s: State, actions: seq<Action>, s': State)
    decreases actions
  {
    if actions == [] then s' == s
    else Enabled(config, s, actions[0]) && IsRun(config, Next(config, s, actions[0]), actions[1..], s')
  }

  ghost predicate Init(s: State) {
    s.mem == Memory(map[], map[]) && s.callbacks == multiset{} && s.store == map[] && s.saving.NotSaving?
  }

  /** The ban is permanent, or its time is not over. */
  predicate InForce(ban: Ban, now: int) {
    ban.duration == 0 || now < ban.created + ban.duration
  }

  // ---------------------------------------------------------------- timers

  /** Timers exist exactly for temporary bans, and know which ban they are for. */
  ghost predicate TimersInv(mem: Memory) {
    && (forall key :: key in mem.timers <==> key in mem.entries && mem.entries[key].duration != 0)
    && (forall key :: key in mem.timers && key in mem.entries ==> mem.timers[key].created == mem.entries[key].created)
  }

  lemma {:induction false} StepKeepsTimers(config: Config, s: State, a: Action)
    requires TimersInv(s.mem) && Enabled(config, s, a)
    ensures TimersInv(Next(config, s, a).mem)
  {
  }

  /** Also with negative durations, in every run from an empty manager. */
  lemma {:induction false} TimersAlwaysMatch(config: Config, s: State, actions: seq<Action>, s': State)
    requires TimersInv(s.mem) && IsRun(config, s, actions, s')
    ensures TimersInv(s'.mem)
    decreases actions
  {
    if actions != [] {
      StepKeepsTimers(config, s, actions[0]);
      TimersAlwaysMatch(config, Next(config, s, actions[0]), actions[1..], s');
    }
  }

  // ---------------------------------------------------------------- bans in force

  /** A negative duration reaches memory only as a kline. */
  predicate NoNegatives(config: Config) {
    config.kind.Dline? || !config.negatives
  }

  ghost predicate EntryInv(s: State, key: Key)
    requires key in s.mem.entries
  {
    var ban := s.mem.entries[key];
    && ban.duration >= 0 && ban.created <= s.clock
    && (key in s.mem.timers ==>
          && s.mem.timers[key].due == ban.created + ban.duration
          && (s.mem.timers[key].fired ==> Callback(key, ban.created) in s.callbacks)
          && (!s.mem.timers[key].fired ==> s.clock <= s.mem.timers[key].due))
  }

  /** A callback that waits is for a time in the past; if that is the ban which is there, its time is over. */
  ghost predicate CallbackInv(s: State, callback: Callback) {
    && callback.created < s.clock
    && (callback.key in s.mem.entries && s.mem.entries[callback.key].created == callback.created ==>
          !InForce(s.mem.entries[callback.key], s.clock))
  }

  /** A ban whose time is over is on its way out: its timer is due, or its callback waits for the lock. */
  lemma {:induction false} ExpiredIsLeaving(s: State, key: Key)
    requires MemInv(s) && key in s.mem.entries && !InForce(s.mem.entries[key], s.clock)
    ensures key in s.mem.timers
    ensures if s.mem.timers[key].fired then Callback(key, s.mem.entries[key].created) in s.callbacks
            else s.mem.timers[key].due <= s.clock
  {
    assert EntryInv(s, key);
  }

  ghost predicate MemInv(s: State) {
    && TimersInv(s.mem)
    && (forall key :: key in s.mem.entries ==> EntryInv(s, key))
    && (forall callback :: callback in s.callbacks ==> CallbackInv(s, callback))
  }

  lemma {:induction false} StepKeepsCallback(config: Config, s: State, a: Action, callback: Callback)
    requires MemInv(s) && Enabled(config, s, a) && NoNegatives(config) && callback in Next(config, s, a).callbacks
    ensures CallbackInv(Next(config, s, a), callback)
  {
    if callback in s.callbacks {
      assert CallbackInv(s, callback);
      if callback.key in s.mem.entries { assert EntryInv(s, callback.key); }
    } else {
      assert EntryInv(s, a.key);
    }
  }

  lemma {:induction false} StepKeepsEntry(config: Config, s: State, a: Action, key: Key)
    requires MemInv(s) && Enabled(config, s, a) && NoNegatives(config) && key in Next(config, s, a).mem.entries
    ensures EntryInv(Next(config, s, a), key)
  {
    if key in s.mem.entries {
      assert EntryInv(s, key);
    }
    if a.Add? {
      AddOutcome(config.kind, s.mem, a.key, Ban(a.reason, a.requireSASL, s.clock, a.duration), s.clock);
    } else {
      assert Next(config, s, a).mem.entries[key] == s.mem.entries[key];
    }
  }

  lemma {:induction false} StepKeepsMem(config: Config, s: State, a: Action)
    requires MemInv(s) && Enabled(config, s, a) && NoNegatives(config)
    ensures MemInv(Next(config, s, a))
  {
    var n := Next(config, s, a);
    StepKeepsTimers(config, s, a);
    forall key | key in n.mem.entries ensures EntryInv(n, key) { StepKeepsEntry(config, s, a, key); }
    forall callback | callback in n.callbacks ensures CallbackInv(n, callback) { StepKeepsCallback(config, s, a, callback); }
  }

  predicate Touches(a: Action, key: Key) {
    (a.Add? || a.Remove?) && a.key == key
  }

  /** During the run no kline of negative duration is added for the key at this instant. */
  ghost predicate HasNoTwin(config: Config, s: State, actions: seq<Action>, key: Key, instant: int)
    decreases actions
  {
    actions != [] && Enabled(config, s, actions[0]) ==>
      && !(config.kind.Kline? && actions[0].Add? && actions[0].key == key && actions[0].duration < 0 && s.clock == instant)
      && HasNoTwin(config, Next(config, s, actions[0]), actions[1..], key, instant)
  }

  /** Callbacks and timers for a ban of the key that was created at this instant. */
  ghost predicate InstantInv(s: State, key: Key, instant: int) {
    && TimersInv(s.mem)
    && (key in s.mem.entries ==> s.mem.entries[key].created <= s.clock)
    && (key in s.mem.timers && s.mem.timers[key].created == instant ==>
          s.mem.entries[key].duration > 0 && s.mem.timers[key].due == instant + s.mem.entries[key].duration)
    && (Callback(key, instant) in s.callbacks ==>
          && instant < s.clock
          && (key in s.mem.entries && s.mem.entries[key].created == instant ==> !InForce(s.mem.entries[key], s.clock)))
  }

  lemma {:induction false} AddKeepsInstant(config: Config, s: State, a: Action, key: Key, instant: int)
    requires InstantInv(s, key, instant) && Enabled(config, s, a) && a.Add?
    requires !(config.kind.Kline? && a.key == key && a.duration < 0 && s.clock == instant)
    ensures InstantInv(Next(config, s, a), key, instant)
  {
    StepKeepsTimers(config, s, a);
    if a.key != key {
      AddOutcome(config.kind, s.mem, a.key, Ban(a.reason, a.requireSASL, s.clock, a.duration), s.clock);
    }
  }

  lemma {:induction false} StepKeepsInstant(config: Config, s: State, a: Action, key: Key, instant: int)
    requires InstantInv(s, key, instant) && Enabled(config, s, a) && HasNoTwin(config, s, [a], key, instant)
    ensures InstantInv(Next(config, s, a), key, instant)
  {
    if a.Add? {
      AddKeepsInstant(config, s, a, key, instant);
    } else {
      StepKeepsTimers(config, s, a);
    }
  }

  lemma {:induction false} RunKeepsInstant(config: Config, s: State, actions: seq<Action>, s': State, key: Key, instant: int)
    requires InstantInv(s, key, instant) && IsRun(config, s, actions, s') && HasNoTwin(config, s, actions, key, instant)
    ensures InstantInv(s', key, instant)
    decreases actions
  {
    if actions != [] {
      assert HasNoTwin(config, s, [actions[0]], key, instant) by {
        assert [actions[0]][1..] == [];
      }
      StepKeepsInstant(config, s, actions[0], key, instant);
      RunKeepsInstant(config, Next(config, s, actions[0]), actions[1..], s', key, instant);
    }
  }

  lemma {:induction false} UntouchedBanStays(config: Config, s: State, actions: seq<Action>, s': State, key: Key)
    requires key in s.mem.entries && InstantInv(s, key, s.mem.entries[key].created) && IsRun(config, s, actions, s')
    requires InForce(s.mem.entries[key], s'.clock) && forall a :: a in actions ==> !Touches(a, key)
    ensures key in s'.mem.entries && s'.mem.entries[key] == s.mem.entries[key]
    decreases actions
  {
    if actions != [] {
      var a, n := actions[0], Next(config, s, actions[0]);
      assert a in actions;
      assert HasNoTwin(config, s, [a], key, s.mem.entries[key].created) by {
        assert [a][1..] == [];
      }
      StepKeepsInstant(config, s, a, key, s.mem.entries[key].created);
      ClockAdvances(config, s, actions, s');
      assert key in n.mem.entries && n.mem.entries[key] == s.mem.entries[key];
      UntouchedBanStays(config, n, actions[1..], s', key);
    }
  }

  /** A ban stays in force for its whole duration, unless it is removed or replaced, however many old
      callbacks there are and whatever other bans are added: all it takes is that no kline of negative
      duration was added for the same key at the very instant of its creation. */
  lemma {:induction false} BanStays(config: Config, s: State, before: seq<Action>, middle: State, actions: seq<Action>, s': State, key: Key)
    requires Init(s) && IsRun(config, s, before, middle) && IsRun(config, middle, actions, s')
    requires key in middle.mem.entries && InForce(middle.mem.entries[key], s'.clock)
    requires HasNoTwin(config, s, before, key, middle.mem.entries[key].created)
    requires forall a :: a in actions ==> !Touches(a, key)
    ensures key in s'.mem.entries && s'.mem.entries[key] == middle.mem.entries[key]
  {
    RunKeepsInstant(config, s, before, middle, key, middle.mem.entries[key].created);
    UntouchedBanStays(config, middle, actions, s', key);
  }

  lemma {:induction false} NoNegativesNoTwin(config: Config, s: State, actions: seq<Action>, s': State, key: Key, instant: int)
    requires NoNegatives(config) && IsRun(config, s, actions, s')
    ensures HasNoTwin(config, s, actions, key, instant)
    decreases actions
  {
    if actions != [] {
      NoNegativesNoTwin(config, Next(config, s, actions[0]), actions[1..], s', key, instant);
    }
  }

  lemma {:induction false} ClockAdvances(config: Config, s: State, actions: seq<Action>, s': State)
    requires IsRun(config, s, actions, s')
    ensures s.clock <= s'.clock
    decreases actions
  {
    if actions != [] {
      ClockAdvances(config, Next(config, s, actions[0]), actions[1..], s');
    }
  }

  // ---------------------------------------------------------------- memory and datastore

  /** No timer is due, no callback waits, and nothing is being saved. */
  ghost predicate Quiet(s: State) {
    && s.saving.NotSaving? && s.callbacks == multiset{}
    && forall key :: key in s.mem.timers && !s.mem.timers[key].fired ==> s.clock < s.mem.timers[key].due
  }

  ghost predicate StoreInv(s: State, key: Key) {
    if s.saving.Persisting? && s.saving.key == key then
      && s.saving.ban.duration >= 0 && s.saving.ban.created <= s.clock
      && (key in s.mem.entries ==> s.mem.entries[key] == s.saving.ban)
      && (InForce(s.saving.ban, s.clock) ==> key in s.mem.entries)
    else if s.saving.Unpersisting? && s.saving.key == key then key !in s.mem.entries
    else
      && (key in s.mem.entries ==> key in s.store && s.store[key].ban == s.mem.entries[key])
      && (key in s.store ==>
            && s.store[key].ban.duration >= 0
            && (InForce(s.store[key].ban, s.clock) ==> key in s.mem.entries)
            && s.store[key].expires.Some? == (s.store[key].ban.duration != 0)
            && (s.store[key].expires.Some? ==> s.store[key].expires.value >= s.store[key].ban.created + s.store[key].ban.duration))
  }

  ghost predicate Inv(s: State) {
    MemInv(s) && forall key :: StoreInv(s, key)
  }

  lemma {:induction false} StepKeepsStore(config: Config, s: State, a: Action, key: Key)
    requires Inv(s) && Enabled(config, s, a) && !config.negatives
    ensures StoreInv(Next(config, s, a), key)
  {
    assert StoreInv(s, key);
    if a.Expire? && a.callback.key == key {
      assert CallbackInv(s, a.callback);
    }
  }

  lemma {:induction false} RunKeepsInv(config: Config, s: State, actions: seq<Action>, s': State)
    requires Inv(s) && !config.negatives && IsRun(config, s, actions, s')
    ensures Inv(s')
    decreases actions
  {
    if actions != [] {
      var n := Next(config, s, actions[0]);
      StepKeepsMem(config, s, actions[0]);
      forall key ensures StoreInv(n, key) { StepKeepsStore(config, s, actions[0], key); }
      RunKeepsInv(config, n, actions[1..], s');
    }
  }

  /** When nothing is pending, a restart loads exactly the bans that are in memory. */
  lemma {:induction false} ReloadIsMemory(config: Config, s: State, actions: seq<Action>, s': State)
    requires Init(s) && !config.negatives && IsRun(config, s, actions, s') && Quiet(s')
    ensures Loaded(config.kind, s'.store, s'.clock) == s'.mem.entries
  {
    RunKeepsInv(config, s, actions, s');
    var loaded := Loaded(config.kind, s'.store, s'.clock);
    forall key ensures key in loaded <==> key in s'.mem.entries
               ensures key in loaded ==> loaded[key] == s'.mem.entries[key]
    {
      assert StoreInv(s', key);
      if key in s'.mem.entries {
        assert EntryInv(s', key);
      }
    }
  }

  // ---------------------------------------------------------------- negative durations

  ghost predicate AlwaysStays(config: Config) {
    forall s, before, middle, actions, s', key ::
      Init(s) && IsRun(config, s, before, middle) && IsRun(config, middle, actions, s') &&
      key in middle.mem.entries && InForce(middle.mem.entries[key], s'.clock) &&
      (forall a :: a in actions ==> !Touches(a, key)) ==>
        key in s'.mem.entries && s'.mem.entries[key] == middle.mem.entries[key]
  }

  ghost predicate AlwaysReloads(config: Config) {
    forall s, actions, s' :: Init(s) && IsRun(config, s, actions, s') && Quiet(s') ==>
      Loaded(config.kind, s'.store, s'.clock) == s'.mem.entries
  }

  /** A negative kline is over at once, but its callback can come after a ban of the same instant. */
  lemma {:induction false} StaleCallbackHits(config: Config, key: Key) returns (s: State, before: seq<Action>, middle: State, last: seq<Action>, s': State)
    requires config == Config(Kline, true)
    ensures Init(s) && IsRun(config, s, before, middle) && IsRun(config, middle, last, s')
    ensures last == [Expire(Callback(key, 0))] && s'.clock == 0 && Quiet(s')
    ensures key in middle.mem.entries && middle.mem.entries[key].duration == 10 && middle.mem.entries[key].created == 0
    ensures key !in s'.mem.entries && key in Loaded(Kline, s'.store, 0)
  {
    s := State(0, Memory(map[], map[]), multiset{}, map[], NotSaving);
    var short, long := Ban("", false, 0, -1), Ban("", false, 0, 10);
    var a, b, c, d := Add(key, "", false, -1), Fire(key), Save, Add(key, "", false, 10);
    var s1 := Next(config, s, a);
    assert s1.mem == Memory(map[key := short], map[key := Timer(0, 0, false)]);
    var s2 := Next(config, s1, b);
    assert s2.callbacks == multiset{Callback(key, 0)} && s2.saving == Persisting(key, short);
    var s3 := Next(config, s2, c);
    var s4 := Next(config, s3, d);
    assert s4.mem == Memory(map[key := long], map[key := Timer(0, 10, false)]) && s4.callbacks == multiset{Callback(key, 0)};
    middle := Next(config, s4, c);
    before := [a, b, c, d, c];
    assert before[1..] == [b, c, d, c] && [b, c, d, c][1..] == [c, d, c] && [c, d, c][1..] == [d, c] && [d, c][1..] == [c] && [c][1..] == [];
    assert IsRun(config, s4, [c], middle);
    assert IsRun(config, s3, [d, c], middle);
    assert IsRun(config, s2, [c, d, c], middle);
    assert IsRun(config, s1, [b, c, d, c], middle);
    last := [Expire(Callback(key, 0))];
    s' := Next(config, middle, last[0]);
    assert last[1..] == [];
  }

  /** Bans stay for their duration in every run, if and only if there are no klines of negative duration. */
  lemma {:induction false} StaysExactlyWithoutNegativeKlines(config: Config)
    ensures AlwaysStays(config) <==> NoNegatives(config)
  {
    if NoNegatives(config) {
      forall s, before, middle, actions, s', key |
        Init(s) && IsRun(config, s, before, middle) && IsRun(config, middle, actions, s') &&
        key in middle.mem.entries && InForce(middle.mem.entries[key], s'.clock) &&
        (forall a :: a in actions ==> !Touches(a, key))
        ensures key in s'.mem.entries && s'.mem.entries[key] == middle.mem.entries[key]
      {
        NoNegativesNoTwin(config, s, before, middle, key, middle.mem.entries[key].created);
        BanStays(config, s, before, middle, actions, s', key);
      }
    } else {
      var s, before, middle, actions, s' := StaleCallbackHits(config, "");
    }
  }

  /** A negative dline does not replace the ban in memory, but it does in the datastore. */
  lemma {:induction false} NegativeDlineIsOnlySaved(config: Config, key: Key) returns (s: State, actions: seq<Action>, s': State)
    requires config == Config(Dline, true)
    ensures Init(s) && IsRun(config, s, actions, s') && Quiet(s')
    ensures key in s'.mem.entries && key !in Loaded(Dline, s'.store, s'.clock)
  {
    s := State(0, Memory(map[], map[]), multiset{}, map[], NotSaving);
    var a, b, c := Add(key, "", false, 10), Save, Add(key, "", false, -1);
    var s1 := Next(config, s, a);
    var s2 := Next(config, s1, b);
    assert s2.mem == Memory(map[key := Ban("", false, 0, 10)], map[key := Timer(0, 10, false)]);
    var s3 := Next(config, s2, c);
    assert s3.mem == s2.mem;
    s' := Next(config, s3, b);
    actions := [a, b, c, b];
    assert actions[1..] == [b, c, b] && [b, c, b][1..] == [c, b] && [c, b][1..] == [b] && [b][1..] == [];
    assert IsRun(config, s3, [b], s');
    assert IsRun(config, s2, [c, b], s');
    assert IsRun(config, s1, [b, c, b], s');
  }

  /** A restart never changes the bans in force, if and only if no negative durations are asked for. */
  lemma {:induction false} ReloadsExactlyWithoutNegatives(config: Config)
    ensures AlwaysReloads(config) <==> !config.negatives
  {
    if !config.negatives {
      forall s, actions, s' | Init(s) && IsRun(config, s, actions, s') && Quiet(s')
        ensures Loaded(config.kind, s'.store, s'.clock) == s'.mem.entries
      {
        ReloadIsMemory(config, s, actions, s');
      }
    } else if config.kind.Dline? {
      var s, actions, s' := NegativeDlineIsOnlySaved(config, "");
    } else {
      var s, before, middle, last, s' := StaleCallbackHits(config, "");
      RunExtends(config, s, before, middle, last[0]);
    }
  }

  lemma {:induction false} RunExtends(config: Config, s: State, actions: seq<Action>, n: State, a: Action)
    requires IsRun(config, s, actions, n) && Enabled(config, n, a)
    ensures IsRun(config, s, actions + [a], Next(config, n, a))
    decreases actions
  {
    if actions == [] {
      assert [] + [a] == [a] && [a][1..] == [];
      assert IsRun(config, Next(config, n, a), [], Next(config, n, a));
    } else {
      assert (actions + [a])[1..] == actions[1..] + [a];
      RunExtends(config, Next(config, s, actions[0]), actions[1..], n, a);
    }
  }
}
