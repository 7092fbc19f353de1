/** Write-behind persistence of a channel (irc/channel.go).

    The protocol is the one of a client with four differences: any dirty bit writes the whole
    registration record, a write can fail and then puts its bits back, no bits means no write, and
    `IsClean` takes the writeback lock with a TryLock and releases it without looking at the bits. A
    channel that is not registered keeps its dirty bits until a write drops them, and is never written.
    A cell is a part of the channel that changes on its own (topic, key, a ban list, one access
    grant); memory and the stored record hold a version number for each. */
module ChannelWriteback {
  import opened Common

  type Tid = nat
  type Bit = nat
  type Versions = map<nat, nat>

  datatype Thread =
    | Marking(bits: set<Bit>)                      // changes what the bits stand for, then calls MarkDirty(bits)
    | Waking                                       // in wakeWriter, before the TryLock
    | StoreWait(extra: set<Bit>)                   // in Store, before the lock is taken
    | Holding(extra: set<Bit>, loop: bool)         // holds the lock, before performWrite(extra)
    | Writing(bits: set<Bit>, buf: Versions, loop: bool)  // exporting the registration
    | Failed(bits: set<Bit>, loop: bool)           // the write failed, the bits are not back yet
    | Written(loop: bool)                          // performWrite is done, the lock still held
    | Testing(loop: bool)                          // lock released, before the dirty bits are read
    | Retrying                                     // writeLoop saw dirty bits, before the TryLock
    | Cleaning                                     // in IsClean, holding the lock

  /** `registered` and `cleanups` say whether the channel is registered during the run and whether IsClean is
      ever called. */
  datatype State = State(registered: bool, cleanups: bool, dirty: set<Bit>, lock: Option<Tid>, mem: Versions, record: Versions,
                         threads: map<Tid, Thread>)

  datatype Action =
    | Begin(t: Tid, bits: set<Bit>)
    | Mutate(t: Tid, cell: nat)
    | Mark(t: Tid)
    | Wake(t: Tid, writer: Tid)
    | BeginStore(t: Tid, extra: set<Bit>)
    | StoreLock(t: Tid)
    | TakeBits(t: Tid)
    | Read(t: Tid, cell: nat)
    | Save(t: Tid, success: bool)
    | PutBack(t: Tid)
    | Unlock(t: Tid)
    | Test(t: Tid)
    | Retry(t: Tid)
    | CleanLock(t: Tid)
    | CleanUnlock(t: Tid)

  predicate IsCall(a: Action) { a.Begin? || a.BeginStore? || a.CleanLock? }

  function Stop(s: State, t: Tid): State { s.(threads := s.threads - {t}) }

  function Go(s: State, t: Tid, pc: Thread): State { s.(threads := s.threads[t := pc]) }

  ghost predicate Enabled(s: State, a: Action) {
    if IsCall(a) then
      && a.t !in s.threads
      && (a.CleanLock? ==> s.cleanups && s.lock.None?)
    else
      && a.t in s.threads
      && var pc := s.threads[a.t];
         match a
         case Mutate(_, c) => pc.Marking? && pc.bits != {} && c in s.mem
         case Mark(_) => pc.Marking?
         case Wake(_, w) => pc.Waking? && w !in s.threads
         case StoreLock(_) => pc.StoreWait? && s.lock.None?
         case TakeBits(_) => pc.Holding?
         case Read(_, c) => pc.Writing? && c in s.mem && c !in pc.buf
         case Save(_, _) => pc.Writing? && forall c :: c in s.mem ==> c in pc.buf
         case PutBack(_) => pc.Failed?
         case Unlock(_) => pc.Written?
         case Test(_) => pc.Testing?
         case Retry(_) => pc.Retrying?
         case CleanUnlock(_) => pc.Cleaning?
  }

  ghost function Next(s: State, a: Action): State
    requires Enabled(s, a)
  {
    match a
    case Begin(t, bits) => Go(s, t, Marking(bits))
    case Mutate(t, c) => s.(mem := s.mem[c := s.mem[c] + 1])
    case Mark(t) =>
      s.(dirty := s.dirty + s.threads[t].bits, threads := if s.registered then s.threads[t := Waking] else s.threads - {t})
    case Wake(t, w) =>
      if s.lock.Some? then Stop(s, t)
      else Go(Stop(s.(lock := Some(w)), t), w, Holding({}, true))
    case BeginStore(t, extra) => Go(s, t, StoreWait(extra))
    case StoreLock(t) => Go(s.(lock := Some(t)), t, Holding(s.threads[t].extra, false))
    case TakeBits(t) =>
      var bits, loop := s.dirty + s.threads[t].extra, s.threads[t].loop;
      Go(s.(dirty := {}), t, if !s.registered || bits == {} then Written(loop) else Writing(bits, map[], loop))
    case Read(t, c) => Go(s, t, s.threads[t].(buf := s.threads[t].buf[c := s.mem[c]]))
    case Save(t, success) =>
      var pc := s.threads[t];
      if success then Go(s.(record := map c | c in s.record && c in pc.buf :: pc.buf[c]), t, Written(pc.loop))
      else Go(s, t, Failed(pc.bits, pc.loop))
    case PutBack(t) => Go(s.(dirty := s.dirty + s.threads[t].bits), t, Written(s.threads[t].loop))
    case Unlock(t) => Go(s.(lock := None), t, Testing(s.threads[t].loop))
    case Test(t) =>
      if s.dirty == {} then Stop(s, t) else Go(s, t, if s.threads[t].loop then Retrying else Waking)
    case Retry(t) =>
      if s.lock.Some? then Stop(s, t) else Go(s.(lock := Some(t)), t, Holding({}, true))
    case CleanLock(t) => Go(s.(lock := Some(t)), t, Cleaning)
    case CleanUnlock(t) => Stop(s.(lock := None), t)
  }

  ghost predicate Init(s: State) {
    s.threads == map[] && s.dirty == {} && s.lock == None && s.mem == s.record
  }

  ghost predicate IsRun(s: State, actions: seq<Action>, s': State)
    decreases actions
  {
    if actions == [] then s' == s
    else Enabled(s, actions[0]) && IsRun(Next(s, actions[0]), actions[1..], s')
  }

  // ---------------------------------------------------------------- nothing is forgotten

  predicate Holds(pc: Thread) {
    pc.Holding? || pc.Writing? || pc.Failed? || pc.Written? || pc.Cleaning?
  }

  predicate Watches(pc: Thread) { pc.Waking? || pc.Testing? || pc.Retrying? }

  /** The thread has changes of `c` to mark, or a write in flight that covers them. */
  predicate Carries(s: State, pc: Thread, c: nat)
    requires c in s.mem
  {
    match pc
    case Marking(bits) => bits != {}
    case Writing(_, buf, _) => c in buf ==> buf[c] == s.mem[c]
    case Failed(_, _) => true
    case _ => false
  }

  ghost predicate Tracked(s: State, c: nat)
    requires c in s.mem && c in s.record
  {
    s.mem[c] == s.record[c] || s.dirty != {} || exists t :: t in s.threads && Carries(s, s.threads[t], c)
  }

  ghost predicate LockInv(s: State) {
    forall t :: t in s.threads && Holds(s.threads[t]) <==> s.lock == Some(t)
  }

  ghost predicate BufInv(s: State, buf: Versions) {
    forall c :: c in buf ==> c in s.mem && c in s.record && s.record[c] <= buf[c] <= s.mem[c]
  }

  ghost predicate ThreadInv(s: State, pc: Thread) {
    && (pc.Failed? || pc.Writing? ==> pc.bits != {})
    && (pc.Writing? ==> BufInv(s, pc.buf))
    && (pc.Cleaning? ==> s.cleanups)
  }

  ghost predicate WakeInv(s: State) {
    s.dirty != {} ==> s.lock.Some? || exists t :: t in s.threads && Watches(s.threads[t])
  }

  ghost predicate Inv(s: State) {
    && s.registered && LockInv(s)
    && s.mem.Keys == s.record.Keys
    && (forall c :: c in s.mem ==> s.record[c] <= s.mem[c] && Tracked(s, c))
    && (forall t :: t in s.threads ==> ThreadInv(s, s.threads[t]))
    && (!s.cleanups ==> WakeInv(s))
  }

  lemma {:induction false} StepKeepsVersion(s: State, a: Action, c: nat)
    requires Inv(s) && Enabled(s, a) && c in s.mem
    ensures c in Next(s, a).mem && c in Next(s, a).record
    ensures s.record[c] <= Next(s, a).record[c] <= Next(s, a).mem[c]
  {
    if a.Save? {
      assert ThreadInv(s, s.threads[a.t]);
    }
  }

  lemma {:induction false} StepKeepsTracked(s: State, a: Action, c: nat)
    requires Inv(s) && Enabled(s, a) && c in s.mem
    ensures c in Next(s, a).mem && c in Next(s, a).record && Tracked(Next(s, a), c)
  {
    var n := Next(s, a);
    StepKeepsVersion(s, a, c);
    assert Tracked(s, c);
    if n.mem[c] != n.record[c] && n.dirty == {} {
      if (a.Mutate? && a.cell == c) || s.dirty != {} {
        assert a.t in n.threads && Carries(n, n.threads[a.t], c);
      } else {
        var t :| t in s.threads && Carries(s, s.threads[t], c);
        if t == a.t {
          assert ThreadInv(s, s.threads[t]);
        }
        assert t in n.threads && Carries(n, n.threads[t], c);
      }
    }
  }

  lemma {:induction false} StepKeepsWakeup(s: State, a: Action)
    requires Inv(s) && Enabled(s, a) && !s.cleanups
    ensures WakeInv(Next(s, a))
  {
    var n := Next(s, a);
    if n.dirty != {} && n.lock.None? {
      if s.dirty != {} && s.lock.None? {
        var t :| t in s.threads && Watches(s.threads[t]);
        assert t in n.threads && Watches(n.threads[t]);
      } else {
        assert a.t in n.threads && Watches(n.threads[a.t]);
      }
    }
  }

  lemma {:induction false} StepKeepsLock(s: State, a: Action)
    requires LockInv(s) && Enabled(s, a)
    ensures LockInv(Next(s, a))
  {
    if IsCall(a) {
    } else if a.Wake? || a.Retry? || a.StoreLock? || a.Unlock? || a.CleanUnlock? {
    } else {
      assert Next(s, a).lock == s.lock;
    }
  }

  lemma {:induction false} StepKeepsOtherThread(s: State, a: Action, t: Tid)
    requires Inv(s) && Enabled(s, a) && t in s.threads && t != a.t
    ensures t in Next(s, a).threads && ThreadInv(Next(s, a), s.threads[t])
  {
    assert ThreadInv(s, s.threads[t]);
    if s.threads[t].Writing? {
      assert s.lock == Some(t) && Next(s, a).record == s.record;
    }
  }

  lemma {:induction false} StepKeepsThread(s: State, a: Action, t: Tid)
    requires Inv(s) && Enabled(s, a) && t in Next(s, a).threads
    ensures ThreadInv(Next(s, a), Next(s, a).threads[t])
  {
    if t in s.threads {
      if t == a.t {
        assert ThreadInv(s, s.threads[t]);
      } else {
        StepKeepsOtherThread(s, a, t);
      }
    }
  }

  lemma {:induction false} StepKeepsInv(s: State, a: Action)
    requires Inv(s) && Enabled(s, a)
    ensures Inv(Next(s, a)) && Next(s, a).cleanups == s.cleanups
    ensures Next(s, a).record.Keys == s.record.Keys
  {
    var n := Next(s, a);
    forall c | c in n.mem ensures c in n.record && n.record[c] <= n.mem[c] && Tracked(n, c) {
      StepKeepsVersion(s, a, c);
      StepKeepsTracked(s, a, c);
    }
    forall t | t in n.threads ensures ThreadInv(n, n.threads[t]) {
      StepKeepsThread(s, a, t);
    }
    StepKeepsLock(s, a);
    if !s.cleanups {
      StepKeepsWakeup(s, a);
    }
  }

  /** Memory differs from the stored record only while a dirty bit is set, a mutator has yet to mark,
      or a write of it is in flight; and the record never goes back. */
  lemma {:induction false} ChangesAreNeverForgotten(s: State, actions: seq<Action>, s': State)
    requires Inv(s) && IsRun(s, actions, s')
    ensures Inv(s') && s'.cleanups == s.cleanups && s'.record.Keys == s.record.Keys
    ensures forall c :: c in s'.mem ==> Tracked(s', c)
    ensures forall c :: c in s.record ==> s.record[c] <= s'.record[c]
    decreases actions
  {
    if actions != [] {
      var n := Next(s, actions[0]);
      StepKeepsInv(s, actions[0]);
      forall c | c in s.record ensures s.record[c] <= n.record[c] {
        StepKeepsVersion(s, actions[0], c);
      }
      ChangesAreNeverForgotten(n, actions[1..], s');
    }
  }

  lemma {:induction false} InitHasInv(s: State)
    requires Init(s) && s.registered
    ensures Inv(s)
  {
  }

  /** At rest the record is what memory is, unless dirty bits say that it is not. */
  lemma {:induction false} AtRestOnlyDirtyBitsHideChanges(s: State, actions: seq<Action>, s': State)
    requires Init(s) && s.registered && IsRun(s, actions, s') && s'.threads == map[] && s'.dirty == {}
    ensures s'.record == s'.mem
  {
    InitHasInv(s);
    ChangesAreNeverForgotten(s, actions, s');
    forall c | c in s'.mem ensures s'.mem[c] == s'.record[c] {
      assert Tracked(s', c);
    }
  }

  // ---------------------------------------------------------------- when the bits are always written

  ghost predicate Reaches(s: State, s': State) {
    exists actions :: IsRun(s, actions, s')
  }

  lemma {:induction false} RunExtends(s: State, actions: seq<Action>, m: State, a: Action)
    requires IsRun(s, actions, m) && Enabled(m, a)
    ensures IsRun(s, actions + [a], Next(m, a))
    decreases actions
  {
    if actions == [] {
      assert IsRun(Next(m, a), [], Next(m, a));
    } else {
      assert (actions + [a])[1..] == actions[1..] + [a];
      RunExtends(Next(s, actions[0]), actions[1..], m, a);
    }
  }

  lemma {:induction false} RunAppends(s: State, first: seq<Action>, m: State, rest: seq<Action>, s': State)
    requires IsRun(s, first, m) && IsRun(m, rest, s')
    ensures IsRun(s, first + rest, s')
    decreases first
  {
    if first == [] {
      assert first + rest == rest;
    } else {
      assert (first + rest)[1..] == first[1..] + rest;
      RunAppends(Next(s, first[0]), first[1..], m, rest, s');
    }
  }

  lemma {:induction false} ReachesThrough(s: State, m: State, s': State)
    requires Reaches(s, m) && Reaches(m, s')
    ensures Reaches(s, s')
  {
    var first :| IsRun(s, first, m);
    var rest :| IsRun(m, rest, s');
    RunAppends(s, first, m, rest, s');
  }

  lemma {:induction false} Do(s0: State, s: State, a: Action) returns (s': State)
    requires Reaches(s0, s) && Enabled(s, a)
    ensures s' == Next(s, a) && Reaches(s0, s')
  {
    var actions :| IsRun(s0, actions, s);
    RunExtends(s0, actions, s, a);
    s' := Next(s, a);
  }

  ghost predicate IsCleanHolds(s: State) {
    exists t :: t in s.threads && s.threads[t].Cleaning? && s.lock == Some(t)
  }

  /** Dirty bits have a writer with the lock, or a thread that has yet to test them or try the lock. */
  ghost predicate WriterInv(s: State) {
    s.dirty != {} ==> exists t :: t in s.threads && (Watches(s.threads[t]) || (Holds(s.threads[t]) && !s.threads[t].Cleaning?))
  }

  lemma {:induction false} StepKeepsWriter(s: State, a: Action)
    requires s.registered && LockInv(s) && WriterInv(s) && Enabled(s, a) && !((a.Wake? || a.Retry?) && IsCleanHolds(s))
    ensures WriterInv(Next(s, a))
  {
    var n := Next(s, a);
    if n.dirty != {} {
      if s.dirty == {} || a.Mark? || a.PutBack? {
        assert a.t in n.threads && (Watches(n.threads[a.t]) || Holds(n.threads[a.t]));
      } else {
        var t :| t in s.threads && (Watches(s.threads[t]) || (Holds(s.threads[t]) && !s.threads[t].Cleaning?));
        if a.Wake? && a.t == t && s.lock.None? {
          assert n.threads[a.writer] == Holding({}, true);
        } else if (a.Wake? || a.Retry?) && a.t == t && s.lock.Some? {
          var u := s.lock.value;
          assert u in s.threads && Holds(s.threads[u]) && !s.threads[u].Cleaning?;
          assert u in n.threads && n.threads[u] == s.threads[u];
        } else {
          assert t in n.threads && (Watches(n.threads[t]) || (Holds(n.threads[t]) && !n.threads[t].Cleaning?));
        }
      }
    }
  }

  predicate IsAttempt(a: Action) { a.Wake? || a.Retry? || a.StoreLock? }

  /** Whether the last attempt of a writer or Store to take the lock failed because IsClean had it, while bits
      were dirty; `taken` is the answer so far. */
  ghost predicate LastIsTaken(s: State, actions: seq<Action>, taken: bool)
    decreases actions
  {
    if actions == [] || !Enabled(s, actions[0]) then taken
    else LastIsTaken(Next(s, actions[0]), actions[1..], TakenAfter(s, actions[0], taken))
  }

  ghost predicate TakenAfter(s: State, a: Action, taken: bool) {
    if IsAttempt(a) then IsCleanHolds(s) && s.dirty != {} else taken
  }

  /** After such an attempt there are dirty bits, and no write that would take them. */
  ghost predicate TakenInv(s: State) {
    s.dirty != {} && forall t :: t in s.threads ==> !s.threads[t].Holding?
  }

  lemma {:induction false} StepKeepsTaken(s: State, a: Action, taken: bool)
    requires Inv(s) && Enabled(s, a) && (if taken then TakenInv(s) else WriterInv(s))
    ensures if TakenAfter(s, a, taken) then TakenInv(Next(s, a)) else WriterInv(Next(s, a))
  {
    if IsAttempt(a) && IsCleanHolds(s) {
      assert forall t :: t in s.threads && Holds(s.threads[t]) ==> s.threads[t].Cleaning?;
    } else if IsAttempt(a) {
      AttemptKeepsWriter(s, a);
    } else if !taken {
      StepKeepsWriter(s, a);
    }
  }

  /** If the lock is free whoever tries gets it, and if not it is a writer that has it. */
  lemma {:induction false} AttemptKeepsWriter(s: State, a: Action)
    requires Inv(s) && Enabled(s, a) && IsAttempt(a) && !IsCleanHolds(s)
    ensures WriterInv(Next(s, a))
  {
    var n := Next(s, a);
    if n.lock == s.lock {
      var u := s.lock.value;
      assert u in s.threads && Holds(s.threads[u]) && !s.threads[u].Cleaning?;
      assert u in n.threads && n.threads[u] == s.threads[u];
    } else {
      var u := n.lock.value;
      assert u in n.threads && n.threads[u].Holding?;
    }
  }

  lemma {:induction false} RunKeepsTaken(s: State, actions: seq<Action>, s': State, taken: bool)
    requires Inv(s) && IsRun(s, actions, s') && (if taken then TakenInv(s) else WriterInv(s))
    ensures Inv(s') && if LastIsTaken(s, actions, taken) then TakenInv(s') else WriterInv(s')
    decreases actions
  {
    if actions != [] {
      StepKeepsInv(s, actions[0]);
      StepKeepsTaken(s, actions[0], taken);
      RunKeepsTaken(Next(s, actions[0]), actions[1..], s', TakenAfter(s, actions[0], taken));
    }
  }

  /** However often IsClean is called and however writes fail, a run that comes to rest leaves the record
      equal to memory, with nothing dirty, if and only if the last attempt to take the lock was not one that
      IsClean made fail while bits were dirty. */
  lemma {:induction false} ConvergesExactlyUnlessLastIsTaken(s: State, actions: seq<Action>, s': State)
    requires Init(s) && s.registered && IsRun(s, actions, s') && s'.threads == map[]
    ensures s'.dirty == {} && s'.record == s'.mem <==> !LastIsTaken(s, actions, false)
  {
    InitHasInv(s);
    RunKeepsTaken(s, actions, s', false);
    if s'.dirty == {} {
      AtRestOnlyDirtyBitsHideChanges(s, actions, s');
    }
  }

  ghost predicate AlwaysConverges(cleanups: bool) {
    forall s, s' :: Init(s) && s.registered && s.cleanups == cleanups && Reaches(s, s') && s'.threads == map[] ==>
      s'.dirty == {} && s'.record == s'.mem
  }

  const FRESH := State(true, true, {}, None, map[0 := 0], map[0 := 0], map[])

  lemma {:induction false} BeginDuringIsClean() returns (s: State)
    ensures Reaches(FRESH, s)
    ensures s == FRESH.(lock := Some(1), threads := map[0 := Marking({0}), 1 := Cleaning])
  {
    assert IsRun(FRESH, [], FRESH);
    s := Do(FRESH, FRESH, CleanLock(1));
    assert s.threads == map[1 := Cleaning];
    s := Do(FRESH, s, Begin(0, {0}));
  }

  lemma {:induction false} ChangeDuringIsClean() returns (s: State)
    ensures Reaches(FRESH, s)
    ensures s == FRESH.(lock := Some(1), mem := map[0 := 1], threads := map[0 := Marking({0}), 1 := Cleaning])
  {
    s := BeginDuringIsClean();
    s := Do(FRESH, s, Mutate(0, 0));
  }

  /** A change is made and marked while IsClean holds the lock. */
  lemma {:induction false} MarkDuringIsClean() returns (s: State)
    ensures Reaches(FRESH, s)
    ensures s == FRESH.(dirty := {0}, lock := Some(1), mem := map[0 := 1], threads := map[0 := Waking, 1 := Cleaning])
  {
    s := ChangeDuringIsClean();
    s := Do(FRESH, s, Mark(0));
  }

  /** IsClean makes the TryLock of that MarkDirty fail and does not test the bits itself. */
  lemma {:induction false} IsCleanLosesWakeup()
    ensures !AlwaysConverges(true)
  {
    var s := MarkDuringIsClean();
    s := Do(FRESH, s, Wake(0, 2));
    s := Do(FRESH, s, CleanUnlock(1));
    assert s.threads == map[] && s.dirty == {0};
    assert Init(FRESH);
  }

  /** However writes fail, a run that comes to rest leaves the record equal to memory, exactly when
      IsClean is not called during it. */
  lemma {:induction false} ConvergesExactlyWithoutIsClean(cleanups: bool)
    ensures AlwaysConverges(cleanups) <==> !cleanups
  {
    if cleanups {
      IsCleanLosesWakeup();
    } else {
      forall s, s' | Init(s) && s.registered && s.cleanups == cleanups && Reaches(s, s') && s'.threads == map[]
        ensures s'.dirty == {} && s'.record == s'.mem
      {
        var actions :| IsRun(s, actions, s');
        InitHasInv(s);
        ChangesAreNeverForgotten(s, actions, s');
        AtRestOnlyDirtyBitsHideChanges(s, actions, s');
      }
    }
  }
}
