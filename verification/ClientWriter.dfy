/** The code of markDirty, wakeWriter, writeLoop, performWrite and Store (irc/client.go), with its loops. Each
    statement that touches shared state is one action of the step system: the ghost field `steps` follows the
    fields of the object, so every method is proved to be a run of ClientWriteback and to inherit what is
    proved about all runs there. What other goroutines change and mark dirty while a write is under way is
    an argument of the methods. */
module ClientWriter {
  import opened Common
  import opened ClientWriteback

  /** Another goroutine changes a cell, if any, and marks these attributes dirty, while the lock is held. */
  datatype Disturbance = Disturbance(bits: set<Attr>, cell: Option<Cell>)

  function AllBits(others: seq<Disturbance>): set<Attr> {
    if others == [] then {} else AllBits(others[..|others| - 1]) + others[|others| - 1].bits
  }

  predicate AreMarks(others: seq<Disturbance>) {
    forall other :: other in others ==> other.bits != {}
  }

  /** The attributes of `seen` are saved as they are in memory, the others are as they were. */
  ghost predicate Settled(before: map<Cell, nat>, db: map<Cell, nat>, mem: map<Cell, nat>, seen: set<Attr>, loggedIn: bool) {
    && before.Keys == db.Keys == mem.Keys
    && forall c :: c in db ==> db[c] == if loggedIn && c.attr in seen then mem[c] else before[c]
  }

  /** Only these attributes may have changed in memory. */
  ghost predicate ChangedOnly(before: map<Cell, nat>, mem: map<Cell, nat>, bits: set<Attr>) {
    before.Keys == mem.Keys && forall c :: c in mem ==> before[c] <= mem[c] && (c.attr !in bits ==> mem[c] == before[c])
  }

  class Client {
    const alwaysOn: bool
    const loggedIn: bool
    const shutdowns: bool
    var dirtyBits: set<Attr>
    var writebackLocked: bool
    var mem: map<Cell, nat>
    var db: map<Cell, nat>
    ghost var steps: State

    ghost predicate Valid()
      reads this
    {
      && steps.config == Config(alwaysOn, loggedIn, shutdowns)
      && steps.dirty == dirtyBits && steps.lock.Some? == writebackLocked
      && steps.mem == mem && steps.db == db && mem.Keys == db.Keys
    }

    constructor (alwaysOn: bool, loggedIn: bool, shutdowns: bool, saved: map<Cell, nat>)
      ensures Valid() && Init(steps) && mem == db == saved
      ensures this.alwaysOn == alwaysOn && this.loggedIn == loggedIn && this.shutdowns == shutdowns
    {
      this.alwaysOn, this.loggedIn, this.shutdowns := alwaysOn, loggedIn, shutdowns;
      dirtyBits, writebackLocked := {}, false;
      mem, db := saved, saved;
      steps := State(Config(alwaysOn, loggedIn, shutdowns), {}, None, saved, saved, map[]);
    }

    /** Within the thread `t`, in a run from `start`. */
    ghost predicate At(start: State, t: Tid, pc: Thread)
      reads this
    {
      Valid() && Reaches(start, steps) && t in start.threads && steps.threads == start.threads[t := pc]
    }

    /** The thread `t` has ended. */
    ghost predicate Ended(start: State, t: Tid)
      reads this
    {
      Valid() && Reaches(start, steps) && steps.threads == start.threads - {t}
    }

    /** Follows one action of the step system that has just been carried out on the fields. */
    ghost method Took(start: State, a: Action)
      requires Enabled(steps, a) && Reaches(start, steps)
      modifies this`steps
      ensures steps == Next(old(steps), a) && Reaches(start, steps)
    {
      steps := Do(start, steps, a);
    }

    // ---------------------------------------------------------------- one write

    /** Clears the dirty bits, and saves what was dirty or asked for. */
    method PerformWrite(ghost start: State, ghost t: Tid, additionalDirtyBits: set<Attr>, ghost after: After)
      requires At(start, t, Holding(additionalDirtyBits, after))
      modifies this`dirtyBits, this`db, this`steps
      ensures At(start, t, Writing([], map[], after)) && dirtyBits == {}
      ensures Settled(old(db), db, mem, old(dirtyBits) + additionalDirtyBits, loggedIn)
    {
      var bits := dirtyBits + additionalDirtyBits;
      dirtyBits := {};
      Took(start, TakeBits(t));
      if !loggedIn {
        return;
      }
      SaveAttributes(start, t, bits, ORDER, after);
      forall c | c in db && c.attr in bits ensures c.attr in InOrder(bits, ORDER) {
        TodoHasAll(bits, c.attr);
      }
    }

    /** The loop over the attributes that performWrite unrolls. */
    method SaveAttributes(ghost start: State, ghost t: Tid, bits: set<Attr>, attrs: seq<Attr>, ghost after: After)
      requires At(start, t, Writing(InOrder(bits, attrs), map[], after))
      modifies this`db, this`steps
      ensures At(start, t, Writing([], map[], after)) && dirtyBits == old(dirtyBits)
      ensures db == Saved(old(db), mem, InOrder(bits, attrs))
    {
      assert attrs[0..] == attrs;
      ghost var done := [];
      var i := 0;
      while i < |attrs|
        invariant 0 <= i <= |attrs|
        invariant At(start, t, Writing(InOrder(bits, attrs[i..]), map[], after)) && db == Saved(old(db), mem, done)
        invariant done + InOrder(bits, attrs[i..]) == InOrder(bits, attrs)
      {
        InOrderAt(bits, attrs, i, done);
        if attrs[i] in bits {
          SaveAttribute(start, t, attrs[i], InOrder(bits, attrs[i + 1..]), after);
          SavedOneMore(old(db), mem, done, attrs[i]);
          done := done + [attrs[i]];
        }
        i := i + 1;
      }
      assert attrs[|attrs|..] == [] && done + [] == done;
    }

    /** Reads the parts of one attribute and saves them: saveChannels, saveModes and the like. */
    method SaveAttribute(ghost start: State, ghost t: Tid, attr: Attr, ghost rest: seq<Attr>, ghost after: After)
      requires At(start, t, Writing([attr] + rest, map[], after))
      modifies this`db, this`steps
      ensures At(start, t, Writing(rest, map[], after)) && dirtyBits == old(dirtyBits)
      ensures db == Saved(old(db), mem, [attr])
    {
      var buf := ReadAttribute(start, t, attr, rest, after);
      SaveIsNext(start, steps, t, attr, rest, buf, after);
      db := SaveCells(db, buf, attr);
      Took(start, Save(t));
    }

    method ReadAttribute(ghost start: State, ghost t: Tid, attr: Attr, ghost rest: seq<Attr>, ghost after: After)
      returns (buf: map<Cell, nat>)
      requires At(start, t, Writing([attr] + rest, map[], after))
      modifies this`steps
      ensures At(start, t, Writing([attr] + rest, buf, after)) && steps.dirty == old(steps.dirty)
      ensures buf == map c | c in mem && c.attr == attr :: mem[c]
    {
      var cells := AllOf(mem, attr);
      buf := map[];
      while cells != {}
        invariant cells <= AllOf(mem, attr) && buf == ReadSoFar(mem, attr, cells)
        invariant At(start, t, Writing([attr] + rest, buf, after))
        decreases cells
      {
        var c :| c in cells;
        ReadOneMore(mem, attr, cells, c);
        ReadIsNext(start, steps, t, [attr] + rest, buf, after, c);
        Took(start, Read(t, c));
        buf := buf[c := mem[c]];
        cells := cells - {c};
      }
    }

    // ---------------------------------------------------------------- the writer

    /** Another goroutine runs through markDirty while the thread `t` has the lock, and finds it taken. */
    method Disturb(ghost start: State, ghost t: Tid, ghost pc: Thread, other: Disturbance)
      requires At(start, t, pc) && writebackLocked
      modifies this`mem, this`dirtyBits, this`steps
      ensures At(start, t, pc) && dirtyBits == old(dirtyBits) + other.bits && db == old(db)
      ensures ChangedOnly(old(mem), mem, other.bits)
    {
      ghost var threads := steps.threads;
      ghost var u := Unused(threads.Keys);
      Took(start, Begin(u, other.bits));
      Change(start, u, other);
      MarkInVain(start, u, other.bits);
      assert threads[u := Marking(other.bits)] - {u} == threads;
    }

    method Change(ghost start: State, ghost u: Tid, other: Disturbance)
      requires Valid() && Reaches(start, steps) && u in steps.threads && steps.threads[u] == Marking(other.bits)
      modifies this`mem, this`steps
      ensures Valid() && Reaches(start, steps) && steps.threads == old(steps.threads)
      ensures ChangedOnly(old(mem), mem, other.bits)
    {
      if other.cell.Some? && other.cell.value in mem && other.cell.value.attr in other.bits {
        mem := mem[other.cell.value := mem[other.cell.value] + 1];
        Took(start, Mutate(u, other.cell.value));
      }
    }

    /** markDirty with the lock taken. */
    method MarkInVain(ghost start: State, ghost u: Tid, bits: set<Attr>)
      requires Valid() && Reaches(start, steps) && u in steps.threads && steps.threads[u] == Marking(bits) && writebackLocked
      modifies this`dirtyBits, this`steps
      ensures Valid() && Reaches(start, steps) && steps.threads == old(steps.threads) - {u}
      ensures dirtyBits == old(dirtyBits) + bits
    {
      dirtyBits := dirtyBits + bits;
      Took(start, Mark(u));
      if alwaysOn {
        Took(start, Wake(u, Unused(steps.threads.Keys)));
      }
    }

    /** The writer goes on as long as others have marked something during its last write: it ends with the
        lock free, no bit dirty and everything saved that was dirty at first or has been marked since. */
    method WriteLoop(ghost start: State, ghost t: Tid, others: seq<Disturbance>)
      requires At(start, t, Holding({}, Loop)) && writebackLocked && AreMarks(others)
      modifies this
      ensures Ended(start, t) && !writebackLocked && dirtyBits == {}
      ensures Settled(old(db), db, mem, old(dirtyBits) + AllBits(others), loggedIn)
      ensures ChangedOnly(old(mem), mem, AllBits(others))
    {
      var again, i := true, 0;
      assert others[..0] == [];
      while again
        invariant 0 <= i <= |others| && writebackLocked == again
        invariant again ==> At(start, t, Holding({}, Loop)) && Pending(old(db), old(dirtyBits) + AllBits(others[..i]))
        invariant !again ==> Ended(start, t) && i == |others| && dirtyBits == {}
        invariant !again ==> Settled(old(db), db, mem, old(dirtyBits) + AllBits(others), loggedIn)
        invariant ChangedOnly(old(mem), mem, AllBits(others[..i]))
        decreases again, |others| - i
      {
        again := WriteOnce(start, t, if i < |others| then Some(others[i]) else None, old(db), old(dirtyBits) + AllBits(others[..i]));
        if i < |others| {
          assert others[i] in others;
          assert others[..i + 1][..i] == others[..i];
          i := i + 1;
        }
        assert others[..|others|] == others;
      }
      assert others[..|others|] == others;
    }

    /** Everything seen so far is saved, or dirty again. */
    ghost predicate Pending(before: map<Cell, nat>, seen: set<Attr>)
      reads this
    {
      && dirtyBits <= seen && before.Keys == db.Keys == mem.Keys
      && forall c :: c in db ==>
           if loggedIn && c.attr in seen then c.attr in dirtyBits || db[c] == mem[c] else db[c] == before[c]
    }

    /** One write, during which another goroutine may mark something. */
    method WriteDisturbed(ghost start: State, ghost t: Tid, extra: set<Attr>, ghost after: After, other: Option<Disturbance>,
                          ghost before: map<Cell, nat>, ghost seen: set<Attr>)
      requires At(start, t, Holding(extra, after)) && writebackLocked && Pending(before, seen)
      modifies this`mem, this`db, this`dirtyBits, this`steps
      ensures At(start, t, Writing([], map[], after)) && dirtyBits == (if other.Some? then other.value.bits else {})
      ensures Pending(before, seen + extra + dirtyBits) && ChangedOnly(old(mem), mem, dirtyBits)
      ensures other.None? ==> mem == old(mem) && Settled(before, db, mem, seen + extra, loggedIn)
    {
      PerformWrite(start, t, extra, after);
      if other.Some? {
        Disturb(start, t, Writing([], map[], after), other.value);
      }
    }

    /** One round of the writer. */
    method WriteOnce(ghost start: State, ghost t: Tid, other: Option<Disturbance>, ghost before: map<Cell, nat>, ghost seen: set<Attr>)
      returns (again: bool)
      requires At(start, t, Holding({}, Loop)) && writebackLocked && Pending(before, seen)
      requires other.Some? ==> other.value.bits != {}
      modifies this
      ensures again == other.Some? == writebackLocked
      ensures again ==> At(start, t, Holding({}, Loop)) && Pending(before, seen + other.value.bits)
      ensures again ==> ChangedOnly(old(mem), mem, other.value.bits)
      ensures !again ==> Ended(start, t) && dirtyBits == {} && mem == old(mem) && Settled(before, db, mem, seen, loggedIn)
    {
      WriteDisturbed(start, t, {}, Loop, other, before, seen);
      again := UnlockAndTest(start, t);
    }

    method UnlockAndTest(ghost start: State, ghost t: Tid) returns (again: bool)
      requires At(start, t, Writing([], map[], Loop)) && writebackLocked
      modifies this`writebackLocked, this`steps
      ensures again == (dirtyBits != {}) == writebackLocked
      ensures if again then At(start, t, Holding({}, Loop)) else Ended(start, t)
    {
      writebackLocked := false;
      Took(start, Unlock(t));
      var isDirty := dirtyBits != {};
      Took(start, Test(t));
      again := isDirty && !writebackLocked;
      if again {
        writebackLocked := true;
        Took(start, Retry(t));
      }
    }

    /** Sets dirty bits, and starts a writer if the client is always-on and there is none. */
    method MarkDirty(ghost start: State, ghost t: Tid, bits: set<Attr>, others: seq<Disturbance>)
      requires At(start, t, Marking(bits)) && AreMarks(others)
      modifies this
      ensures Ended(start, t) && writebackLocked == old(writebackLocked)
      ensures alwaysOn && !writebackLocked ==>
                && dirtyBits == {} && Settled(old(db), db, mem, old(dirtyBits) + bits + AllBits(others), loggedIn)
                && ChangedOnly(old(mem), mem, AllBits(others))
      ensures !alwaysOn || writebackLocked ==> dirtyBits == old(dirtyBits) + bits && db == old(db) && mem == old(mem)
    {
      dirtyBits := dirtyBits + bits;
      Took(start, Mark(t));
      if alwaysOn {
        WakeWriter(start, t, others);
      }
    }

    method WakeWriter(ghost start: State, ghost t: Tid, others: seq<Disturbance>)
      requires At(start, t, Waking) && AreMarks(others)
      modifies this
      ensures Ended(start, t) && writebackLocked == old(writebackLocked)
      ensures !writebackLocked ==>
                && dirtyBits == {} && Settled(old(db), db, mem, old(dirtyBits) + AllBits(others), loggedIn)
                && ChangedOnly(old(mem), mem, AllBits(others))
      ensures writebackLocked ==> dirtyBits == old(dirtyBits) && db == old(db) && mem == old(mem)
    {
      ghost var writer := Unused(steps.threads.Keys);
      if writebackLocked {
        Took(start, Wake(t, writer));
      } else {
        writebackLocked := true;
        Took(start, Wake(t, writer));
        RunWriter(start, t, writer, others);
      }
    }

    /** The new goroutine. */
    method RunWriter(ghost start: State, ghost t: Tid, ghost writer: Tid, others: seq<Disturbance>)
      requires Valid() && Reaches(start, steps) && writebackLocked && AreMarks(others) && writer !in start.threads
      requires steps.threads == (start.threads - {t})[writer := Holding({}, Loop)]
      modifies this
      ensures Ended(start, t) && !writebackLocked && dirtyBits == {}
      ensures Settled(old(db), db, mem, old(dirtyBits) + AllBits(others), loggedIn)
      ensures ChangedOnly(old(mem), mem, AllBits(others))
    {
      ghost var woken := steps;
      assert IsRun(woken, [], woken);
      WriteLoop(woken, writer, others);
      ReachesThrough(start, woken, steps);
      assert steps.threads == start.threads - {t};
    }

    // ---------------------------------------------------------------- blocking

    /** Writes the given attributes, and whatever else is dirty, before it returns; what others mark meanwhile
        is left to a new writer, but not at a shutdown. */
    method Store(ghost start: State, ghost t: Tid, bits: set<Attr>, shutdown: bool, others: seq<Disturbance>)
      requires At(start, t, StoreWait(bits, shutdown)) && !writebackLocked && AreMarks(others)
      modifies this
      ensures Ended(start, t) && !writebackLocked
      ensures !shutdown || others == [] ==>
                dirtyBits == {} && Settled(old(db), db, mem, old(dirtyBits) + bits + AllBits(others), loggedIn)
      ensures shutdown && others != [] ==>
                dirtyBits == others[0].bits && Pending(old(db), old(dirtyBits) + bits + others[0].bits)
      ensures ChangedOnly(old(mem), mem, AllBits(others))
    {
      WriteAndUnlock(start, t, bits, shutdown, if others == [] then None else Some(others[0]));
      FirstBits(others);
      if shutdown {
        // no writer is started any more
        return;
      }
      var isDirty := dirtyBits != {};
      Took(start, Test(t));
      if isDirty {
        assert forall other :: other in others[1..] ==> other in others;
        WakeWriter(start, t, others[1..]);
      }
    }

    method WriteAndUnlock(ghost start: State, ghost t: Tid, bits: set<Attr>, ghost shutdown: bool, other: Option<Disturbance>)
      requires At(start, t, StoreWait(bits, shutdown)) && !writebackLocked
      modifies this
      ensures if shutdown then Ended(start, t) else At(start, t, Testing(Stored(false)))
      ensures !writebackLocked && dirtyBits == if other.Some? then other.value.bits else {}
      ensures Pending(old(db), old(dirtyBits) + bits + dirtyBits)
      ensures ChangedOnly(old(mem), mem, dirtyBits)
    {
      LockForStore(start, t, bits, shutdown);
      WriteDisturbed(start, t, bits, Stored(shutdown), other, db, dirtyBits);
      UnlockAfterStore(start, t, shutdown);
    }

    method LockForStore(ghost start: State, ghost t: Tid, ghost bits: set<Attr>, ghost shutdown: bool)
      requires At(start, t, StoreWait(bits, shutdown)) && !writebackLocked
      modifies this`writebackLocked, this`steps
      ensures At(start, t, Holding(bits, Stored(shutdown))) && writebackLocked
    {
      writebackLocked := true;
      Took(start, StoreLock(t));
    }

    method UnlockAfterStore(ghost start: State, ghost t: Tid, ghost shutdown: bool)
      requires At(start, t, Writing([], map[], Stored(shutdown)))
      modifies this`writebackLocked, this`steps
      ensures if shutdown then Ended(start, t) else At(start, t, Testing(Stored(false)))
      ensures !writebackLocked
    {
      writebackLocked := false;
      Took(start, Unlock(t));
    }
  }

  lemma {:induction false} FirstBits(others: seq<Disturbance>)
    ensures others != [] ==> AllBits(others) == others[0].bits + AllBits(others[1..])
    decreases |others|
  {
    if |others| > 1 {
      var n := |others| - 1;
      FirstBits(others[..n]);
      assert others[..n][1..] == others[1..][..n - 1];
    }
  }

  lemma {:induction false} InOrderAt(bits: set<Attr>, attrs: seq<Attr>, i: nat, done: seq<Attr>)
    requires i < |attrs|
    ensures var rest := InOrder(bits, attrs[i + 1..]);
            InOrder(bits, attrs[i..]) == (if attrs[i] in bits then [attrs[i]] + rest else rest) &&
            (attrs[i] in bits ==> done + ([attrs[i]] + rest) == done + [attrs[i]] + rest)
  {
    assert attrs[i..][0] == attrs[i] && attrs[i..][1..] == attrs[i + 1..];
  }

  function AllOf(mem: map<Cell, nat>, attr: Attr): set<Cell> {
    set c | c in mem.Keys && c.attr == attr
  }

  /** What has been read of an attribute while `cells` are still to be read. */
  ghost function ReadSoFar(mem: map<Cell, nat>, attr: Attr, cells: set<Cell>): map<Cell, nat> {
    map c | c in mem && c.attr == attr && c !in cells :: mem[c]
  }

  lemma {:induction false} ReadOneMore(mem: map<Cell, nat>, attr: Attr, cells: set<Cell>, c: Cell)
    requires c in cells && cells <= AllOf(mem, attr)
    ensures ReadSoFar(mem, attr, cells - {c}) == ReadSoFar(mem, attr, cells)[c := mem[c]]
  {
  }

  lemma {:induction false} ReadIsNext(start: State, s: State, t: Tid, todo: seq<Attr>, buf: map<Cell, nat>, after: After, c: Cell)
    requires t in start.threads && s.threads == start.threads[t := Writing(todo, buf, after)]
    requires todo != [] && c in s.mem && c.attr == todo[0] && c !in buf
    ensures Enabled(s, Read(t, c))
    ensures Next(s, Read(t, c)) == s.(threads := start.threads[t := Writing(todo, buf[c := s.mem[c]], after)])
  {
  }

  /** The database after the given attributes have been saved. */
  ghost function Saved(db: map<Cell, nat>, mem: map<Cell, nat>, attrs: seq<Attr>): map<Cell, nat> {
    map c | c in db.Keys :: if c.attr in attrs && c in mem then mem[c] else db[c]
  }

  lemma {:induction false} SavedOneMore(db: map<Cell, nat>, mem: map<Cell, nat>, attrs: seq<Attr>, attr: Attr)
    ensures Saved(Saved(db, mem, attrs), mem, [attr]) == Saved(db, mem, attrs + [attr])
  {
  }

  lemma {:induction false} SaveIsNext(start: State, s: State, t: Tid, attr: Attr, rest: seq<Attr>, buf: map<Cell, nat>, after: After)
    requires t in start.threads && s.threads == start.threads[t := Writing([attr] + rest, buf, after)]
    requires s.mem.Keys == s.db.Keys && buf == map c | c in s.mem && c.attr == attr :: s.mem[c]
    ensures Enabled(s, Save(t))
    ensures Next(s, Save(t)) == s.(db := SaveCells(s.db, buf, attr), threads := start.threads[t := Writing(rest, map[], after)])
    ensures SaveCells(s.db, buf, attr) == Saved(s.db, s.mem, [attr])
  {
    assert ([attr] + rest)[1..] == rest;
  }
}
