/** The code of MarkDirty, wakeWriter, writeLoop, performWrite, Store and IsClean of a channel
    (irc/channel.go), with its loop, run by one goroutine at a time. As in ClientWriter, the ghost field
    `steps` follows the fields, so every method is a run of ChannelWriteback. */
module ChannelWriter {
  import opened Common
  import opened ChannelWriteback

  class Channel {
    var dirtyBits: set<Bit>
    var writebackLocked: bool
    var mem: Versions
    var record: Versions
    var members: set<nat>
    const founder: string
    ghost var steps: State

    ghost predicate Valid()
      reads this
    {
      && steps.registered == (founder != "") && steps.cleanups && steps.dirty == dirtyBits && steps.lock.Some? == writebackLocked
      && steps.mem == mem && steps.record == record && mem.Keys == record.Keys
    }

    constructor (founder: string, members: set<nat>, saved: Versions)
      ensures Valid() && Init(steps) && mem == record == saved && this.members == members && this.founder == founder
    {
      this.founder, this.members := founder, members;
      dirtyBits, writebackLocked, mem, record := {}, false, saved, saved;
      steps := State(founder != "", true, {}, None, saved, saved, map[]);
    }

    /** Within the thread `t`, in a run from `start`. */
    ghost predicate At(start: State, t: Tid, pc: Thread)
      reads this
    {
      Valid() && Reaches(start, steps) && t in start.threads && steps.threads == start.threads[t := pc]
    }

    ghost method Took(start: State, a: Action)
      requires Enabled(steps, a) && Reaches(start, steps)
      modifies this`steps
      ensures steps == Next(old(steps), a) && Reaches(start, steps)
    {
      steps := Do(start, steps, a);
    }

    /** Copies the record part by part. */
    method ExportRegistration(ghost start: State, ghost t: Tid, ghost bits: set<Bit>, ghost loop: bool) returns (info: Versions)
      requires At(start, t, Writing(bits, map[], loop))
      modifies this`steps
      ensures At(start, t, Writing(bits, info, loop)) && info == mem && steps.dirty == old(steps.dirty)
    {
      var cells := mem.Keys;
      info := map[];
      while cells != {}
        invariant cells <= mem.Keys && info == map c | c in mem && c !in cells :: mem[c]
        invariant At(start, t, Writing(bits, info, loop))
        decreases cells
      {
        var c :| c in cells;
        Took(start, Read(t, c));
        info := info[c := mem[c]];
        cells := cells - {c};
      }
    }

    /** One write; `success` is what the datastore says. */
    method PerformWrite(ghost start: State, ghost t: Tid, additionalDirtyBits: set<Bit>, success: bool, ghost loop: bool)
      requires At(start, t, Holding(additionalDirtyBits, loop)) && writebackLocked
      modifies this`dirtyBits, this`record, this`steps
      ensures At(start, t, Written(loop))
      ensures var bits := old(dirtyBits) + additionalDirtyBits;
              if founder == "" || bits == {} then dirtyBits == {} && record == old(record)
              else if success then dirtyBits == {} && record == mem
              else dirtyBits == bits && record == old(record)
    {
      var bits := dirtyBits + additionalDirtyBits;
      dirtyBits := {};
      Took(start, TakeBits(t));
      if founder == "" || bits == {} {
        return;
      }
      var info := ExportRegistration(start, t, bits, loop);
      SaveRecord(start, t, bits, info, success, loop);
    }

    method SaveRecord(ghost start: State, ghost t: Tid, bits: set<Bit>, info: Versions, success: bool, ghost loop: bool)
      requires At(start, t, Writing(bits, info, loop)) && info == mem
      modifies this`dirtyBits, this`record, this`steps
      ensures At(start, t, Written(loop))
      ensures if success then dirtyBits == old(dirtyBits) && record == mem else dirtyBits == old(dirtyBits) + bits && record == old(record)
    {
      Took(start, Save(t, success));
      if success {
        record := info;
      } else {
        Took(start, PutBack(t));
        dirtyBits := dirtyBits + bits;
      }
    }

    /** The writer, whose first writes fail, `failures` times if there is something to write: when it ends,
        nothing is dirty. It calls Cleanup if it has seen the channel empty. */
    method WriteLoop(ghost start: State, ghost t: Tid, failures: nat) returns (cleanup: bool)
      requires At(start, t, Holding({}, true)) && writebackLocked
      modifies this`dirtyBits, this`record, this`writebackLocked, this`steps
      ensures Valid() && Reaches(start, steps) && steps.threads == start.threads - {t}
      ensures !writebackLocked && dirtyBits == {}
      ensures record == if founder == "" || old(dirtyBits) == {} then old(record) else mem
      ensures cleanup <==> members == {}
    {
      cleanup := false;
      var left := failures;
      var running := true;
      while running
        invariant running ==> At(start, t, Holding({}, true)) && dirtyBits == old(dirtyBits) && record == old(record)
        invariant writebackLocked == running && mem == old(mem)
        invariant !running ==>
                    && Valid() && Reaches(start, steps) && steps.threads == start.threads - {t} && dirtyBits == {}
                    && record == (if founder == "" || old(dirtyBits) == {} then old(record) else mem) && (cleanup <==> members == {})
        decreases running, left
      {
        var success := left == 0;
        left := if success then left else left - 1;
        PerformWrite(start, t, {}, success, true);
        running, cleanup := UnlockAndTest(start, t);
      }
    }

    /** The end of a round of the writer: with dirty bits it goes on, if it gets the lock; without, it cleans
        an empty channel up. */
    method UnlockAndTest(ghost start: State, ghost t: Tid) returns (running: bool, cleanup: bool)
      requires At(start, t, Written(true)) && writebackLocked
      modifies this`writebackLocked, this`steps
      ensures (running <==> dirtyBits != {}) && (cleanup <==> dirtyBits == {} && members == {})
      ensures running ==> At(start, t, Holding({}, true)) && writebackLocked
      ensures !running ==> Valid() && Reaches(start, steps) && steps.threads == start.threads - {t} && !writebackLocked
    {
      Took(start, Unlock(t));
      writebackLocked := false;
      var isDirty, isEmpty := dirtyBits != {}, members == {};
      Took(start, Test(t));
      if !isDirty {
        return false, isEmpty;
      }
      Took(start, Retry(t));
      writebackLocked := true;
      return true, false;
    }

    /** Sets bits and, if the channel is registered and no one has the lock, starts a writer. */
    method MarkDirty(ghost start: State, ghost t: Tid, bits: set<Bit>, failures: nat)
      requires At(start, t, Marking(bits))
      modifies this`dirtyBits, this`record, this`writebackLocked, this`steps
      ensures Valid() && Reaches(start, steps) && steps.threads == start.threads - {t}
      ensures if founder == "" || old(writebackLocked)
              then writebackLocked == old(writebackLocked) && dirtyBits == old(dirtyBits) + bits && record == old(record)
              else !writebackLocked && dirtyBits == {} && record == if old(dirtyBits) + bits == {} then old(record) else mem
    {
      dirtyBits := dirtyBits + bits;
      Took(start, Mark(t));
      if founder == "" {
        assert steps.threads == start.threads - {t};
        return;
      }
      WakeWriter(start, t, failures);
    }

    method WakeWriter(ghost start: State, ghost t: Tid, failures: nat)
      requires At(start, t, Waking)
      modifies this`dirtyBits, this`record, this`writebackLocked, this`steps
      ensures Valid() && Reaches(start, steps) && steps.threads == start.threads - {t}
      ensures if old(writebackLocked) then writebackLocked && dirtyBits == old(dirtyBits) && record == old(record)
              else !writebackLocked && dirtyBits == {} && record == if founder == "" || old(dirtyBits) == {} then old(record) else mem
    {
      ghost var writer := Unused(steps.threads.Keys);
      Took(start, Wake(t, writer));
      if !writebackLocked {
        writebackLocked := true;
        ghost var woken := steps;
        assert IsRun(woken, [], woken);
        var cleanup := WriteLoop(woken, writer, failures);
        ReachesThrough(start, woken, steps);
        assert steps.threads == start.threads - {t};
      }
    }

    /** A blocking write, after which a writer is woken if it has failed, and an empty channel is cleaned up
        if not. */
    method Store(ghost start: State, ghost t: Tid, additionalDirtyBits: set<Bit>, success: bool, failures: nat)
      returns (cleanup: bool)
      requires At(start, t, StoreWait(additionalDirtyBits)) && !writebackLocked
      modifies this`dirtyBits, this`record, this`writebackLocked, this`steps
      ensures Valid() && Reaches(start, steps) && steps.threads == start.threads - {t}
      ensures !writebackLocked && dirtyBits == {}
      ensures record == if founder == "" || old(dirtyBits) + additionalDirtyBits == {} then old(record) else mem
      ensures cleanup <==> members == {} && (success || founder == "" || old(dirtyBits) + additionalDirtyBits == {})
    {
      WriteAndUnlock(start, t, additionalDirtyBits, success);
      var isDirty, isEmpty := dirtyBits != {}, members == {};
      Took(start, Test(t));
      cleanup := !isDirty && isEmpty;
      if isDirty {
        WakeWriter(start, t, failures);
      }
    }

    method WriteAndUnlock(ghost start: State, ghost t: Tid, additionalDirtyBits: set<Bit>, success: bool)
      requires At(start, t, StoreWait(additionalDirtyBits)) && !writebackLocked
      modifies this`dirtyBits, this`record, this`writebackLocked, this`steps
      ensures At(start, t, Testing(false)) && !writebackLocked
      ensures var bits := old(dirtyBits) + additionalDirtyBits;
              if founder == "" || bits == {} then dirtyBits == {} && record == old(record)
              else if success then dirtyBits == {} && record == mem
              else dirtyBits == bits && record == old(record)
    {
      writebackLocked := true;
      Took(start, StoreLock(t));
      PerformWrite(start, t, additionalDirtyBits, success, false);
      writebackLocked := false;
      Took(start, Unlock(t));
    }

    /** Whether the channel can be removed: not while the lock is taken, not with members, and not while it is
        registered. The lock is as before. */
    method IsClean(ghost start: State, ghost t: Tid) returns (clean: bool)
      requires Valid() && Reaches(start, steps) && t !in steps.threads && steps.threads == start.threads
      modifies this`writebackLocked, this`steps
      ensures Valid() && Reaches(start, steps) && steps.threads == start.threads
      ensures clean <==> !old(writebackLocked) && members == {} && founder == ""
      ensures writebackLocked == old(writebackLocked)
    {
      if writebackLocked {
        return false;
      }
      writebackLocked := true;
      Took(start, CleanLock(t));
      clean := members == {} && founder == "";
      writebackLocked := false;
      Took(start, CleanUnlock(t));
      assert steps.threads == start.threads;
    }
  }
}
