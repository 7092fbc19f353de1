/** Write-behind persistence of a client's saved attributes (irc/client.go).

    Every attribute that is saved in the account database is split into cells, the parts that change
    one at a time: for `Channels` one cell per channel, holding the membership and the modes in it,
    for the others a single cell. Memory and database hold a version number per cell. A thread of
    the step system is a goroutine inside `markDirty`, `Store` or `writeLoop`; every action is one
    critical section, one cell read or one database transaction, so a run of actions is an
    interleaving of the code. */
module ClientWriteback {
  import opened Common

  datatype Attr = Channels | UserModes | Realname | PushSubscriptions | Metadata

  datatype Cell = Cell(attr: Attr, part: nat)

  type Tid = nat

  /** What `performWrite` was called from, which decides what happens after the lock is released. */
  datatype After = Loop | Stored(shutdown: bool)

  datatype Thread =
    | Marking(bits: set<Attr>)                            // changes memory, then calls markDirty(bits)
    | Waking                                              // in wakeWriter, before the TryLock
    | StoreWait(extra: set<Attr>, shutdown: bool)         // in Store, before the lock is taken
    | Holding(extra: set<Attr>, after: After)             // holds the lock, before performWrite(extra)
    | Writing(todo: seq<Attr>, buf: map<Cell, nat>, after: After)  // in performWrite, cells read so far
    | Testing(after: After)                               // lock released, before the dirty bits are read
    | Retrying                                            // writeLoop saw dirty bits, before the TryLock

  /** Facts about the client and the server that stay fixed during a run. */
  datatype Config = Config(alwaysOn: bool, loggedIn: bool, shutdowns: bool)

  datatype State = State(
    config: Config,
    dirty: set<Attr>,            // dirtyBits
    lock: Option<Tid>,           // writebackLock, and who will release it
    mem: map<Cell, nat>,         // versions in memory
    db: map<Cell, nat>,          // versions in the database
    threads: map<Tid, Thread>)

  datatype Action =
    | Begin(t: Tid, bits: set<Attr>)
    | Mutate(t: Tid, cell: Cell)
    | Mark(t: Tid)
    | Wake(t: Tid, writer: Tid)
    | BeginStore(t: Tid, extra: set<Attr>, shutdown: bool)
    | StoreLock(t: Tid)
    | TakeBits(t: Tid)
    | Read(t: Tid, cell: Cell)
    | Save(t: Tid)
    | Unlock(t: Tid)
    | Test(t: Tid)
    | Retry(t: Tid)

  /** performWrite goes through the attributes in this order. */
  const ORDER: seq<Attr> := [Channels, UserModes, Realname, PushSubscriptions, Metadata]

  /** The attributes of `bits` that occur in `attrs`, in the order of `attrs`. */
  function InOrder(bits: set<Attr>, attrs: seq<Attr>): (todo: seq<Attr>)
    ensures forall a :: a in todo <==> a in attrs && a in bits
    ensures bits == {} ==> todo == []
  {
    if attrs == [] then []
    else if attrs[0] in bits then [attrs[0]] + InOrder(bits, attrs[1..])
    else InOrder(bits, attrs[1..])
  }

  function SaveCells(db: map<Cell, nat>, buf: map<Cell, nat>, attr: Attr): map<Cell, nat> {
    map c | c in db.Keys :: if c.attr == attr && c in buf then buf[c] else db[c]
  }

  function Stop(s: State, t: Tid): State {
    s.(threads := s.threads - {t})
  }

  function Go(s: State, t: Tid, pc: Thread): State {
    s.(threads := s.threads[t := pc])
  }

  /** Which thread may take the action now, by what it is doing. */
  ghost predicate Enabled(s: State, a: Action) {
    if a.Begin? then a.t !in s.threads
    else if a.BeginStore? then a.t !in s.threads && (a.shutdown ==> s.config.shutdowns)
    else
      && a.t in s.threads
      && var pc := s.threads[a.t];
         match a
         case Mutate(_, c) => pc.Marking? && c in s.mem && c.attr in pc.bits
         case Mark(_) => pc.Marking?
         case Wake(_, w) => pc.Waking? && w !in s.threads
         case StoreLock(_) => pc.StoreWait? && s.lock.None?
         case TakeBits(_) => pc.Holding?
         case Read(_, c) => pc.Writing? && pc.todo != [] && c in s.mem && c.attr == pc.todo[0] && c !in pc.buf
         case Save(_) => pc.Writing? && pc.todo != [] && forall c :: c in s.mem && c.attr == pc.todo[0] ==> c in pc.buf
         case Unlock(_) => pc.Writing? && pc.todo == []
         case Test(_) => pc.Testing?
         case Retry(_) => pc.Retrying?
  }

  ghost function Next(s: State, a: Action): State
    requires Enabled(s, a)
  {
    match a
    case Begin(t, bits) => Go(s, t, Marking(bits))
    case Mutate(t, c) => s.(mem := s.mem[c := s.mem[c] + 1])
    case Mark(t) =>
      var marked := s.(dirty := s.dirty + s.threads[t].bits);
      if s.config.alwaysOn then Go(marked, t, Waking) else Stop(marked, t)
    case Wake(t, w) =>
      // a successful TryLock hands the lock to the new goroutine
      if s.lock.Some? then Stop(s, t)
      else Go(Stop(s.(lock := Some(w)), t), w, Holding({}, Loop))
    case BeginStore(t, extra, shutdown) => Go(s, t, StoreWait(extra, shutdown))
    case StoreLock(t) =>
      Go(s.(lock := Some(t)), t, Holding(s.threads[t].extra, Stored(s.threads[t].shutdown)))
    case TakeBits(t) =>
      var bits := s.dirty + s.threads[t].extra;
      // a logged-out client is reported and nothing is written
      var todo := if s.config.loggedIn then InOrder(bits, ORDER) else [];
      Go(s.(dirty := {}), t, Writing(todo, map[], s.threads[t].after))
    case Read(t, c) =>
      Go(s, t, s.threads[t].(buf := s.threads[t].buf[c := s.mem[c]]))
    case Save(t) =>
      var pc := s.threads[t];
      Go(s.(db := SaveCells(s.db, pc.buf, pc.todo[0])), t, pc.(todo := pc.todo[1..], buf := map[]))
    case Unlock(t) =>
      var after := s.threads[t].after;
      if after == Stored(true) then Stop(s.(lock := None), t) else Go(s.(lock := None), t, Testing(after))
    case Test(t) =>
      if s.dirty == {} then Stop(s, t)
      else Go(s, t, if s.threads[t].after.Loop? then Retrying else Waking)
    case Retry(t) =>
      if s.lock.Some? then Stop(s, t) else Go(s.(lock := Some(t)), t, Holding({}, Loop))
  }

  ghost predicate Init(s: State) {
    s.threads == map[] && s.dirty == {} && s.lock == None && s.mem == s.db
  }

  ghost predicate IsRun(s: State, actions: seq<Action>, s': State)
    decreases actions
  {
    if actions == [] then s' == s
    else Enabled(s, actions[0]) && IsRun(Next(s, actions[0]), actions[1..], s')
  }

  // ---------------------------------------------------------------- the invariant

  predicate Holds(pc: Thread) { pc.Holding? || pc.Writing? }

  predicate Watches(pc: Thread) { pc.Waking? || pc.Testing? || pc.Retrying? }

  /** The lock belongs to exactly the thread that is between TryLock and Unlock. */
  ghost predicate LockInv(s: State) {
    forall t :: t in s.threads && Holds(s.threads[t]) <==> s.lock == Some(t)
  }

  /** Dirty bits are never left without a thread that holds the lock or will look at them or the lock. */
  ghost predicate WakeInv(s: State) {
    s.dirty != {} ==> s.lock.Some? || exists t :: t in s.threads && Watches(s.threads[t])
  }

  ghost predicate VersionInv(s: State) {
    && s.mem.Keys == s.db.Keys
    && (forall c :: c in s.mem ==> s.db[c] <= s.mem[c])
    && forall t, c :: t in s.threads && s.threads[t].Writing? && c in s.threads[t].buf ==>
         c in s.mem && s.db[c] <= s.threads[t].buf[c] <= s.mem[c]
  }

  /** Thread `pc` is about to mark `c` dirty or to save the version of `c` that is in memory. */
  predicate Carries(s: State, pc: Thread, c: Cell)
    requires c in s.mem
  {
    match pc
    case Marking(bits) => c.attr in bits
    case Writing(todo, buf, _) =>
      && todo != []
      && (c.attr in todo[1..] || (c.attr == todo[0] && (c in buf ==> buf[c] == s.mem[c])))
    case _ => false
  }

  /** A cell that differs from the database is not forgotten. */
  ghost predicate Tracked(s: State, c: Cell)
    requires c in s.mem && c in s.db
  {
    || s.mem[c] == s.db[c]
    || c.attr in s.dirty
    || exists t :: t in s.threads && Carries(s, s.threads[t], c)
  }

  predicate EndsWatching(pc: Thread) {
    match pc
    case StoreWait(_, shutdown) => !shutdown
    case Holding(_, after) => after != Stored(true)
    case Writing(_, _, after) => after != Stored(true)
    case _ => true
  }

  predicate Supported(config: Config) {
    config.alwaysOn && config.loggedIn && !config.shutdowns
  }

  ghost predicate Inv(s: State) {
    && LockInv(s) && VersionInv(s)
    && (s.config.loggedIn ==> forall c :: c in s.mem ==> Tracked(s, c))
    && (Supported(s.config) ==> WakeInv(s) && forall t :: t in s.threads ==> EndsWatching(s.threads[t]))
  }

  lemma {:induction false} StepKeepsWakeup(s: State, a: Action)
    requires Inv(s) && Enabled(s, a) && Supported(s.config)
    ensures WakeInv(Next(s, a))
  {
    var n := Next(s, a);
    if n.dirty != {} && n.lock.None? {
      if s.dirty != {} && s.lock.None? {
        var t :| t in s.threads && Watches(s.threads[t]);
        assert t in n.threads && Watches(n.threads[t]);
      } else {
        assert a.t in n.threads && Watches(n.threads[a.t]);
      }
    }
  }

  lemma {:induction false} TodoHasAll(bits: set<Attr>, a: Attr)
    requires a in bits
    ensures var todo := InOrder(bits, ORDER); todo != [] && (todo[0] == a || a in todo[1..])
  {
    assert a in ORDER by {
      assert ORDER[0] == Channels && ORDER[1] == UserModes && ORDER[2] == Realname
          && ORDER[3] == PushSubscriptions && ORDER[4] == Metadata;
    }
    var todo := InOrder(bits, ORDER);
    assert todo == [todo[0]] + todo[1..];
  }

  /** A thread that will save or mark a cell goes on to do so, unless it has just done it. */
  lemma {:induction false} CarriedStaysTracked(s: State, a: Action, t: Tid, c: Cell)
    requires Inv(s) && Enabled(s, a) && s.config.loggedIn && c in s.mem && !(a.Mutate? && a.cell == c)
    requires t in s.threads && Carries(s, s.threads[t], c)
    requires Next(s, a).mem[c] != Next(s, a).db[c] && c.attr !in Next(s, a).dirty
    ensures t in Next(s, a).threads && Carries(Next(s, a), Next(s, a).threads[t], c)
  {
  }

  lemma {:induction false} StepKeepsTracked(s: State, a: Action, c: Cell)
    requires Inv(s) && Enabled(s, a) && s.config.loggedIn && c in s.mem
    ensures c in Next(s, a).mem && c in Next(s, a).db && Tracked(Next(s, a), c)
  {
    var n := Next(s, a);
    assert Tracked(s, c);
    if n.mem[c] != n.db[c] && c.attr !in n.dirty {
      if a.Mutate? && a.cell == c {
        assert a.t in n.threads && Carries(n, n.threads[a.t], c);
      } else if c.attr in s.dirty {
        assert a.TakeBits?;
        TodoHasAll(s.dirty + s.threads[a.t].extra, c.attr);
        assert a.t in n.threads && Carries(n, n.threads[a.t], c);
      } else {
        assert s.mem[c] != s.db[c];
        var t :| t in s.threads && Carries(s, s.threads[t], c);
        CarriedStaysTracked(s, a, t, c);
      }
    }
  }

  lemma {:induction false} SaveKeepsVersions(s: State, a: Action)
    requires LockInv(s) && VersionInv(s) && Enabled(s, a) && a.Save?
    ensures VersionInv(Next(s, a))
    ensures Next(s, a).mem.Keys == s.mem.Keys
    ensures forall c :: c in s.mem ==> s.db[c] <= Next(s, a).db[c]
  {
    var n := Next(s, a);
    assert forall t :: t in s.threads && t != a.t ==> !Holds(s.threads[t]);
    assert n.threads[a.t].buf == map[];
  }

  lemma {:induction false} StepKeepsBuffer(s: State, a: Action, t: Tid, c: Cell)
    requires VersionInv(s) && Enabled(s, a) && !a.Save?
    requires t in Next(s, a).threads && Next(s, a).threads[t].Writing? && c in Next(s, a).threads[t].buf
    ensures var n := Next(s, a); c in n.mem && c in n.db && n.db[c] <= n.threads[t].buf[c] <= n.mem[c]
  {
    var n := Next(s, a);
    if t in s.threads && n.threads[t] == s.threads[t] {
      assert c in s.mem && s.db[c] <= s.threads[t].buf[c] <= s.mem[c];
    } else {
      assert a.Read? && t == a.t;
    }
  }

  lemma {:induction false} OnlySaveChangesDb(s: State, a: Action)
    requires Enabled(s, a) && !a.Save?
    ensures Next(s, a).db == s.db && Next(s, a).mem.Keys == s.mem.Keys
    ensures forall c :: c in s.mem ==> s.mem[c] <= Next(s, a).mem[c]
  {
  }

  lemma {:induction false} StepKeepsVersions(s: State, a: Action)
    requires LockInv(s) && VersionInv(s) && Enabled(s, a)
    ensures VersionInv(Next(s, a))
    ensures Next(s, a).mem.Keys == s.mem.Keys
    ensures forall c :: c in s.mem ==> s.db[c] <= Next(s, a).db[c]
  {
    if a.Save? {
      SaveKeepsVersions(s, a);
    } else {
      var n := Next(s, a);
      OnlySaveChangesDb(s, a);
      forall t, c | t in n.threads && n.threads[t].Writing? && c in n.threads[t].buf
        ensures c in n.mem && n.db[c] <= n.threads[t].buf[c] <= n.mem[c]
      {
        StepKeepsBuffer(s, a, t, c);
      }
    }
  }

  lemma {:induction false} StepKeepsLock(s: State, a: Action)
    requires LockInv(s) && Enabled(s, a)
    ensures LockInv(Next(s, a))
  {
  }

  lemma {:induction false} StepKeepsEnds(s: State, a: Action)
    requires Enabled(s, a) && Supported(s.config)
    requires forall t :: t in s.threads ==> EndsWatching(s.threads[t])
    ensures forall t :: t in Next(s, a).threads ==> EndsWatching(Next(s, a).threads[t])
  {
  }

  lemma {:induction false} StepKeepsInv(s: State, a: Action)
    requires Inv(s) && Enabled(s, a)
    ensures Inv(Next(s, a)) && Next(s, a).config == s.config
  {
    StepKeepsVersions(s, a);
    StepKeepsLock(s, a);
    if Supported(s.config) {
      StepKeepsWakeup(s, a);
      StepKeepsEnds(s, a);
    }
    if s.config.loggedIn {
      forall c | c in Next(s, a).mem ensures Tracked(Next(s, a), c) {
        StepKeepsTracked(s, a, c);
      }
    }
  }

  // ---------------------------------------------------------------- whole runs

  lemma {:induction false} RunKeepsInv(s: State, actions: seq<Action>, s': State)
    requires Inv(s) && IsRun(s, actions, s')
    ensures Inv(s') && s'.config == s.config
    decreases actions
  {
    if actions != [] {
      StepKeepsInv(s, actions[0]);
      RunKeepsInv(Next(s, actions[0]), actions[1..], s');
    }
  }

  lemma {:induction false} InitHasInv(s: State)
    requires Init(s)
    ensures Inv(s)
  {
  }

  /** Whatever the interleaving, the version of a cell in the database never goes back. */
  lemma {:induction false} StoredVersionsNeverGoBack(s: State, actions: seq<Action>, s': State)
    requires Inv(s) && IsRun(s, actions, s')
    ensures s'.db.Keys == s.db.Keys
    ensures forall c :: c in s.db ==> s.db[c] <= s'.db[c]
    decreases actions
  {
    if actions != [] {
      var n := Next(s, actions[0]);
      StepKeepsInv(s, actions[0]);
      StepKeepsVersions(s, actions[0]);
      StoredVersionsNeverGoBack(n, actions[1..], s');
      assert forall c :: c in s.db ==> s.db[c] <= n.db[c];
    }
  }

  /** No wakeup is lost: dirty bits always have the lock holder, or a thread that has yet to test them
      or to try the lock. */
  lemma {:induction false} WakeupNeverLost(s: State, actions: seq<Action>, s': State)
    requires Init(s) && Supported(s.config) && IsRun(s, actions, s')
    ensures s'.dirty != {} ==>
              || (exists t :: t in s'.threads && Holds(s'.threads[t]))
              || (exists t :: t in s'.threads && Watches(s'.threads[t]))
  {
    InitHasInv(s);
    RunKeepsInv(s, actions, s');
    if s'.lock.Some? {
      assert Holds(s'.threads[s'.lock.value]);
    }
  }

  /** Once every thread has finished, the database is what memory is. */
  lemma {:induction false} QuiescentStoreIsMemory(s: State, actions: seq<Action>, s': State)
    requires Init(s) && Supported(s.config) && IsRun(s, actions, s') && s'.threads == map[]
    ensures s'.dirty == {} && s'.db == s'.mem && s'.lock == None
  {
    InitHasInv(s);
    RunKeepsInv(s, actions, s');
    WakeupNeverLost(s, actions, s');
    forall c | c in s'.mem ensures s'.mem[c] == s'.db[c] {
      assert Tracked(s', c);
    }
  }

  /** While threads remain, one of them can go on without any new call being made. */
  lemma {:induction false} NeverStuck(s: State, actions: seq<Action>, s': State)
    requires Init(s) && IsRun(s, actions, s') && s'.threads != map[]
    ensures exists a: Action :: !a.Begin? && !a.BeginStore? && Enabled(s', a)
  {
    InitHasInv(s);
    RunKeepsInv(s, actions, s');
    var t :| t in s'.threads;
    var u := if s'.lock.Some? then s'.lock.value else t;
    var pc := s'.threads[u];
    match pc {
      case Marking(_) => assert Enabled(s', Mark(u));
      case Waking =>
        var w := Unused(s'.threads.Keys);
        assert Enabled(s', Wake(u, w));
      case StoreWait(_, _) => assert Enabled(s', StoreLock(u));
      case Holding(_, _) => assert Enabled(s', TakeBits(u));
      case Writing(todo, buf, _) =>
        if todo == [] {
          assert Enabled(s', Unlock(u));
        } else if c :| c in s'.mem && c.attr == todo[0] && c !in buf {
          assert Enabled(s', Read(u, c));
        } else {
          assert Enabled(s', Save(u));
        }
      case Testing(_) => assert Enabled(s', Test(u));
      case Retrying => assert Enabled(s', Retry(u));
    }
  }

  // ---------------------------------------------------------------- Store blocks until it has written

  /** Thread `t` called Store(extra) when memory was `floor`, and either has not come past the writing
      of `c` yet or the database has a version of `c` that is no older. */
  ghost predicate StoreReaches(s: State, t: Tid, extra: set<Attr>, floor: map<Cell, nat>, c: Cell)
    requires c in floor && c in s.mem && c in s.db
  {
    || floor[c] <= s.db[c]
    || (t in s.threads && floor[c] <= s.mem[c] &&
        match s.threads[t]
        case StoreWait(e, _) => e == extra
        case Holding(e, _) => e == extra
        case Writing(todo, buf, _) =>
          && todo != []
          && (c.attr in todo[1..] || (c.attr == todo[0] && (c in buf ==> floor[c] <= buf[c])))
        case _ => false)
  }

  /** One more step of the storing thread itself. */
  lemma {:induction false} OwnStepKeepsStoreReaches(s: State, a: Action, t: Tid, extra: set<Attr>, floor: map<Cell, nat>, c: Cell)
    requires Inv(s) && Enabled(s, a) && s.config.loggedIn && a.t == t
    requires c in floor && c in s.mem && c.attr in extra && StoreReaches(s, t, extra, floor, c)
    requires c in Next(s, a).mem && s.db[c] <= Next(s, a).db[c]
    ensures StoreReaches(Next(s, a), t, extra, floor, c)
  {
    if a.TakeBits? && s.threads[t].extra == extra {
      TodoHasAll(s.dirty + s.threads[t].extra, c.attr);
    }
  }

  lemma {:induction false} OtherStepKeepsThread(s: State, a: Action, t: Tid)
    requires Enabled(s, a) && a.t != t && t in s.threads
    ensures t in Next(s, a).threads && Next(s, a).threads[t] == s.threads[t]
    ensures forall c :: c in s.mem ==> c in Next(s, a).mem && s.mem[c] <= Next(s, a).mem[c]
  {
  }

  lemma {:induction false} StepKeepsStoreReaches(s: State, a: Action, t: Tid, extra: set<Attr>, floor: map<Cell, nat>, c: Cell)
    requires Inv(s) && Enabled(s, a) && s.config.loggedIn
    requires c in floor && c in s.mem && c.attr in extra && StoreReaches(s, t, extra, floor, c)
    ensures c in Next(s, a).mem && c in Next(s, a).db && StoreReaches(Next(s, a), t, extra, floor, c)
  {
    StepKeepsVersions(s, a);
    if a.t == t {
      OwnStepKeepsStoreReaches(s, a, t, extra, floor, c);
    } else if floor[c] > s.db[c] {
      OtherStepKeepsThread(s, a, t);
    }
  }

  /** When a Store has returned, the attributes it was called for are saved as they were when it was
      called, or later. */
  lemma {:induction false} StoreIsBlocking(s: State, t: Tid, extra: set<Attr>, floor: map<Cell, nat>,
                                           actions: seq<Action>, s': State, c: Cell)
    requires Inv(s) && s.config.loggedIn && IsRun(s, actions, s') && t !in s'.threads
    requires c in floor && c in s.mem && c.attr in extra && StoreReaches(s, t, extra, floor, c)
    ensures c in s'.db && floor[c] <= s'.db[c]
    decreases actions
  {
    if actions != [] {
      StepKeepsInv(s, actions[0]);
      StepKeepsStoreReaches(s, actions[0], t, extra, floor, c);
      StoreIsBlocking(Next(s, actions[0]), t, extra, floor, actions[1..], s', c);
    }
  }

  lemma {:induction false} StoreWritesWhatWasThere(s: State, t: Tid, extra: set<Attr>, shutdown: bool, actions: seq<Action>, s': State)
    requires Inv(s) && s.config.loggedIn && Enabled(s, BeginStore(t, extra, shutdown))
    requires IsRun(Next(s, BeginStore(t, extra, shutdown)), actions, s') && t !in s'.threads
    ensures forall c :: c in s.mem && c.attr in extra ==> c in s'.db && s.mem[c] <= s'.db[c]
  {
    var begun := Next(s, BeginStore(t, extra, shutdown));
    StepKeepsInv(s, BeginStore(t, extra, shutdown));
    forall c | c in s.mem && c.attr in extra ensures c in s'.db && s.mem[c] <= s'.db[c] {
      StoreIsBlocking(begun, t, extra, s.mem, actions, s', c);
    }
  }

  // ---------------------------------------------------------------- exactly when it works

  ghost predicate Reaches(s: State, s': State) {
    exists actions :: IsRun(s, actions, s')
  }

  lemma {:induction false} RunExtends(s: State, actions: seq<Action>, m: State, a: Action)
    requires IsRun(s, actions, m) && Enabled(m, a)
    ensures IsRun(s, actions + [a], Next(m, a))
    decreases actions
  {
    if actions == [] {
      assert IsRun(Next(m, a), [], Next(m, a));
    } else {
      assert (actions + [a])[1..] == actions[1..] + [a];
      RunExtends(Next(s, actions[0]), actions[1..], m, a);
    }
  }

  lemma {:induction false} ReachesNext(s: State, m: State, a: Action)
    requires Reaches(s, m) && Enabled(m, a)
    ensures Reaches(s, Next(m, a))
  {
    var actions :| IsRun(s, actions, m);
    RunExtends(s, actions, m, a);
  }

  lemma {:induction false} RunAppends(s: State, first: seq<Action>, m: State, rest: seq<Action>, s': State)
    requires IsRun(s, first, m) && IsRun(m, rest, s')
    ensures IsRun(s, first + rest, s')
    decreases first
  {
    if first == [] {
      assert first + rest == rest;
    } else {
      assert (first + rest)[1..] == first[1..] + rest;
      RunAppends(Next(s, first[0]), first[1..], m, rest, s');
    }
  }

  lemma {:induction false} ReachesThrough(s: State, m: State, s': State)
    requires Reaches(s, m) && Reaches(m, s')
    ensures Reaches(s, s')
  {
    var first, rest :| IsRun(s, first, m) && IsRun(m, rest, s');
    RunAppends(s, first, m, rest, s');
  }

  ghost predicate AlwaysConverges(config: Config) {
    forall s, s' :: Init(s) && s.config == config && Reaches(s, s') && s'.threads == map[] ==>
      s'.dirty == {} && s'.db == s'.mem
  }

  const REALNAME := Cell(Realname, 0)

  function Fresh(config: Config): State {
    State(config, {}, None, map[REALNAME := 0], map[REALNAME := 0], map[])
  }

  /** The real name of a fresh client is changed and marked dirty by thread 0. */
  lemma {:induction false} AfterMark(config: Config) returns (s: State)
    ensures Reaches(Fresh(config), s)
    ensures s.config == config && s.lock == None && s.dirty == {Realname}
    ensures s.mem == map[REALNAME := 1] && s.db == map[REALNAME := 0]
    ensures s.threads == if config.alwaysOn then map[0 := Waking] else map[]
  {
    s := Fresh(config);
    assert IsRun(s, [], s);
    s := Do(Fresh(config), s, Begin(0, {Realname}));
    s := Do(Fresh(config), s, Mutate(0, REALNAME));
    s := Do(Fresh(config), s, Mark(0));
  }

  lemma {:induction false} Do(s0: State, s: State, a: Action) returns (s': State)
    requires Reaches(s0, s) && Enabled(s, a)
    ensures s' == Next(s, a) && Reaches(s0, s')
  {
    ReachesNext(s0, s, a);
    s' := Next(s, a);
  }

  /** A client that is not always-on keeps its dirty bits, and no writer is started. */
  lemma {:induction false} NotAlwaysOnIsNotWritten(config: Config)
    requires !config.alwaysOn
    ensures !AlwaysConverges(config)
  {
    var s := AfterMark(config);
  }

  /** For a logged-out client the writer takes the dirty bits and writes nothing. */
  lemma {:induction false} LoggedOutIsNotWritten(config: Config)
    requires config.alwaysOn && !config.loggedIn
    ensures !AlwaysConverges(config)
  {
    var s0 := Fresh(config);
    var s := AfterMark(config);
    s := Do(s0, s, Wake(0, 1));
    s := Do(s0, s, TakeBits(1));
    s := Do(s0, s, Unlock(1));
    s := Do(s0, s, Test(1));
    assert s.threads == map[] && s.mem[REALNAME] != s.db[REALNAME];
    assert Init(s0);
  }

  /** A Store for shutdown has taken the (empty) dirty bits and still holds the lock. */
  lemma {:induction false} ShutdownStoreHoldsLock(config: Config) returns (s: State)
    requires config.shutdowns
    ensures Reaches(Fresh(config), s)
    ensures s == Fresh(config).(lock := Some(1), threads := map[1 := Writing([], map[], Stored(true))])
  {
    var s0 := Fresh(config);
    assert IsRun(s0, [], s0);
    s := Do(s0, s0, BeginStore(1, {}, true));
    s := Do(s0, s, StoreLock(1));
    var nothing: set<Attr> := {};
    assert nothing + nothing == {};
    s := Do(s0, s, TakeBits(1));
  }

  /** It does not look at the bits that are set before it releases the lock. */
  lemma {:induction false} ShutdownStoreLosesWakeup(config: Config)
    requires config.alwaysOn && config.shutdowns
    ensures !AlwaysConverges(config)
  {
    var s0 := Fresh(config);
    var s := ShutdownStoreHoldsLock(config);
    s := Do(s0, s, Begin(0, {Realname}));
    s := Do(s0, s, Mutate(0, REALNAME));
    s := Do(s0, s, Mark(0));
    s := Do(s0, s, Wake(0, 2));
    s := Do(s0, s, Unlock(1));
    assert s.threads == map[] && s.dirty == {Realname};
    assert Init(s0);
  }

  /** Every run that comes to rest leaves the database equal to memory exactly when the client is
      always-on and logged in and no Store is made for shutdown. */
  lemma {:induction false} ConvergesExactlyWhenSupported(config: Config)
    ensures AlwaysConverges(config) <==> Supported(config)
  {
    if Supported(config) {
      forall s, s' | Init(s) && s.config == config && Reaches(s, s') && s'.threads == map[]
        ensures s'.dirty == {} && s'.db == s'.mem
      {
        var actions :| IsRun(s, actions, s');
        QuiescentStoreIsMemory(s, actions, s');
      }
    } else if !config.alwaysOn {
      NotAlwaysOnIsNotWritten(config);
    } else if !config.loggedIn {
      LoggedOutIsNotWritten(config);
    } else {
      ShutdownStoreLosesWakeup(config);
    }
  }
}
