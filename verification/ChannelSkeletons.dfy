/** chansSkeletons, the set that refuses channel names confusable with an existing one
    (irc/channelmanager.go), over all interleavings of the registry. */
module ChannelSkeletons {
  import opened Common
  import opened ChannelRegistry

  /** The skeleton of the current name of the entry's channel. */
  ghost function SkeletonOf(config: Config, r: Registry, cf: string): Option<string>
    requires cf in r.chans
  {
    if r.chans[cf].channel in r.heap then config.fold.skeleton(r.heap[r.chans[cf].channel].name) else None
  }

  /** The entry stands under its channel's current name, and the skeleton of that is in the set. */
  ghost predicate NameInv(config: Config, r: Registry, cf: string)
    requires cf in r.chans
  {
    var ch, skeleton := r.chans[cf].channel, SkeletonOf(config, r, cf);
    && ch in r.heap && r.heap[ch].cf == cf && config.fold.casefold(r.heap[ch].name) == Some(cf)
    && skeleton.Some? && skeleton.value in r.skeletons
  }

  ghost predicate IsUsed(config: Config, r: Registry, skeleton: string) {
    exists cf :: cf in r.chans && SkeletonOf(config, r, cf) == Some(skeleton)
  }

  /** The set holds exactly the skeletons of the current channel names, which are distinct. */
  ghost predicate Mirrors(config: Config, r: Registry) {
    && (forall cf :: cf in r.chans ==> NameInv(config, r, cf))
    && (forall a, b :: a in r.chans && b in r.chans && a != b ==> SkeletonOf(config, r, a) != SkeletonOf(config, r, b))
    && (forall skeleton :: skeleton in r.skeletons ==> IsUsed(config, r, skeleton))
  }

  /** The skeleton that is kept with the entry, for its deletion, is that of the current name. */
  ghost predicate IsFresh(config: Config, r: Registry, cf: string)
    requires cf in r.chans
  {
    SkeletonOf(config, r, cf) == Some(r.chans[cf].skeleton)
  }

  ghost predicate AllFresh(config: Config, r: Registry) {
    forall cf :: cf in r.chans ==> IsFresh(config, r, cf)
  }

  /** CasefoldChannel accepts only names that begin with '#' (irc/strings.go:84-97), and Skeleton never takes
      all characters of such a name away (irc/strings.go:178-188). */
  ghost predicate FoldsChannels(fold: Folding) {
    && (forall name :: fold.casefold(name).Some? ==> name != "" && name[0] == '#')
    && (forall name :: name != "" && name[0] == '#' ==> fold.skeleton(name) != Some(""))
  }

  // ---------------------------------------------------------------- what a step does to the set

  /** The same names under the same keys. */
  ghost predicate SameNames(r: Registry, r': Registry) {
    && r'.chans.Keys == r.chans.Keys && r'.skeletons == r.skeletons
    && (forall cf :: cf in r.chans ==>
          r'.chans[cf].channel == r.chans[cf].channel && r'.chans[cf].skeleton == r.chans[cf].skeleton)
    && (forall ch :: ch in r.heap ==> ch in r'.heap && r'.heap[ch].name == r.heap[ch].name && r'.heap[ch].cf == r.heap[ch].cf)
  }

  lemma {:induction false} SameNamesMirror(config: Config, r: Registry, r': Registry)
    requires Mirrors(config, r) && SameNames(r, r')
    ensures Mirrors(config, r') && (AllFresh(config, r) <==> AllFresh(config, r'))
  {
    forall cf | cf in r.chans
      ensures NameInv(config, r', cf) && SkeletonOf(config, r', cf) == SkeletonOf(config, r, cf)
      ensures IsFresh(config, r', cf) <==> IsFresh(config, r, cf)
    {
      assert NameInv(config, r, cf);
    }
    forall skeleton | IsUsed(config, r, skeleton) ensures IsUsed(config, r', skeleton) {
      var cf :| cf in r.chans && SkeletonOf(config, r, cf) == Some(skeleton);
      assert cf in r'.chans && SkeletonOf(config, r', cf) == Some(skeleton);
    }
  }

  lemma {:induction false} EnterKeepsMirror(config: Config, r: Registry, name: string, mayCreate: bool, newCh: Ch)
    requires Mirrors(config, r) && newCh !in r.heap
    ensures var r' := Enter(config, r, name, mayCreate, newCh).0;
            Mirrors(config, r') && (AllFresh(config, r) ==> AllFresh(config, r'))
  {
    var r' := Enter(config, r, name, mayCreate, newCh).0;
    if r' != r {
      var cf := config.fold.casefold(name).value;
      if cf in r.chans {
        SameNamesMirror(config, r, r');
      } else {
        forall c | c in r.chans ensures NameInv(config, r', c) && SkeletonOf(config, r', c) == SkeletonOf(config, r, c) {
          assert NameInv(config, r, c);
        }
        forall skeleton | IsUsed(config, r, skeleton) ensures IsUsed(config, r', skeleton) {
          var c :| c in r.chans && SkeletonOf(config, r, c) == Some(skeleton);
          assert c in r'.chans && SkeletonOf(config, r', c) == Some(skeleton);
        }
        assert NameInv(config, r', cf) && IsUsed(config, r', r'.chans[cf].skeleton);
        if AllFresh(config, r) {
          forall c | c in r'.chans ensures IsFresh(config, r', c) {
            if c != cf { assert IsFresh(config, r, c); }
          }
        }
      }
    }
  }

  /** An entry goes, and what is kept with it goes from the set: right exactly for a fresh one. */
  lemma {:induction false} DeletionIsRightExactlyIfFresh(config: Config, r: Registry, cf: string, r': Registry)
    requires Mirrors(config, r) && FoldsChannels(config.fold) && cf in r.chans
    requires r' == r.(chans := r.chans - {cf}, skeletons := r'.skeletons)
    requires r'.skeletons == if r.chans[cf].skeleton != "" then r.skeletons - {r.chans[cf].skeleton} else r.skeletons
    ensures Mirrors(config, r') <==> IsFresh(config, r, cf)
    ensures AllFresh(config, r) ==> AllFresh(config, r')
  {
    assert NameInv(config, r, cf);
    var skeleton := SkeletonOf(config, r, cf).value;
    forall c | c in r'.chans ensures SkeletonOf(config, r', c) == SkeletonOf(config, r, c) != Some(skeleton) {
      assert NameInv(config, r, c);
    }
    if IsFresh(config, r, cf) {
      forall c | c in r'.chans ensures NameInv(config, r', c) {
        assert NameInv(config, r, c);
      }
      forall x | x in r'.skeletons ensures IsUsed(config, r', x) {
        assert IsUsed(config, r, x);
        var c :| c in r.chans && SkeletonOf(config, r, c) == Some(x);
        assert c in r'.chans && SkeletonOf(config, r', c) == Some(x);
      }
    } else {
      assert skeleton in r'.skeletons && !IsUsed(config, r', skeleton);
    }
    if AllFresh(config, r) {
      forall c | c in r'.chans ensures IsFresh(config, r', c) {
        assert IsFresh(config, r, c);
      }
    }
  }

  /** Whether maybeCleanupInternal deletes the entry. */
  predicate Deletes(r: Registry, cf: string, afterJoin: bool, busy: bool)
    requires cf in r.chans && r.chans[cf].channel in r.heap
  {
    r.chans[cf].pendingJoins == (if afterJoin then 1 else 0) && IsClean(r.heap[r.chans[cf].channel], busy)
  }

  lemma {:induction false} CleanupIsRightExactly(config: Config, r: Registry, cf: string, afterJoin: bool, busy: bool)
    requires Mirrors(config, r) && FoldsChannels(config.fold) && cf in r.chans && r.chans[cf].channel in r.heap
    ensures var r' := CleanupInternal(r, cf, r.chans[cf], afterJoin, busy);
            && (Mirrors(config, r') <==> (Deletes(r, cf, afterJoin, busy) ==> IsFresh(config, r, cf)))
            && (AllFresh(config, r) ==> AllFresh(config, r'))
  {
    var r' := CleanupInternal(r, cf, r.chans[cf], afterJoin, busy);
    if Deletes(r, cf, afterJoin, busy) {
      DeletionIsRightExactlyIfFresh(config, r, cf, r');
    } else {
      SameNamesMirror(config, r, r');
    }
  }

  /** Renaming a registered channel so that its skeleton changes leaves the old one with its entry. */
  predicate IsStaleRename(config: Config, r: Registry, name: string, newName: string)
    requires EntriesInHeap(r)
  {
    var cf := config.fold.casefold(name);
    && Rename(config, r, name, newName).1 == None && cf.Some? && cf.value in r.chans
    && r.heap[r.chans[cf.value].channel].founder != ""
    && config.fold.skeleton(newName) != config.fold.skeleton(r.heap[r.chans[cf.value].channel].name)
  }

  /** A renaming that succeeds: all names but one stay, and the skeletons follow. */
  lemma {:induction false} RenameMovesName(config: Config, r: Registry, name: string, newName: string)
    requires Mirrors(config, r) && EntriesInHeap(r) && Rename(config, r, name, newName).1 == None
    ensures var (r', oldCf, cf) :=
              (Rename(config, r, name, newName).0, config.fold.casefold(name).value, config.fold.casefold(newName).value);
            && oldCf in r.chans && r'.chans.Keys == r.chans.Keys - {oldCf} + {cf} && (cf == oldCf || cf !in r.chans)
            && SkeletonOf(config, r', cf) == config.fold.skeleton(newName) && NameInv(config, r', cf)
            && (forall c :: c in r.chans && c != oldCf ==>
                  && c != cf && r'.chans[c] == r.chans[c] && NameInv(config, r', c)
                  && SkeletonOf(config, r', c) == SkeletonOf(config, r, c) != config.fold.skeleton(newName))
  {
    var r', oldCf := Rename(config, r, name, newName).0, config.fold.casefold(name).value;
    var cf := config.fold.casefold(newName).value;
    assert NameInv(config, r, oldCf);
    forall c | c in r.chans && c != oldCf
      ensures c != cf && r'.chans[c] == r.chans[c] && NameInv(config, r', c)
      ensures SkeletonOf(config, r', c) == SkeletonOf(config, r, c) != config.fold.skeleton(newName)
    {
      assert NameInv(config, r, c);
    }
  }

  lemma {:induction false} RenamedIsUsed(config: Config, r: Registry, name: string, newName: string, x: string)
    requires Mirrors(config, r) && EntriesInHeap(r) && Rename(config, r, name, newName).1 == None
    requires x in Rename(config, r, name, newName).0.skeletons
    ensures IsUsed(config, Rename(config, r, name, newName).0, x)
  {
    var r', oldCf := Rename(config, r, name, newName).0, config.fold.casefold(name).value;
    var cf := config.fold.casefold(newName).value;
    RenameMovesName(config, r, name, newName);
    if config.fold.skeleton(newName) == Some(x) {
      assert cf in r'.chans && SkeletonOf(config, r', cf) == Some(x);
    } else {
      assert IsUsed(config, r, x) && SkeletonOf(config, r, oldCf) != Some(x);
      var c :| c in r.chans && SkeletonOf(config, r, c) == Some(x);
      assert c in r'.chans && SkeletonOf(config, r', c) == Some(x);
    }
  }

  lemma {:induction false} RenameKeepsMirror(config: Config, r: Registry, name: string, newName: string)
    requires Mirrors(config, r) && EntriesInHeap(r)
    ensures Mirrors(config, Rename(config, r, name, newName).0)
  {
    var (r', error) := Rename(config, r, name, newName);
    if error == None {
      RenameMovesName(config, r, name, newName);
      forall x | x in r'.skeletons ensures IsUsed(config, r', x) {
        RenamedIsUsed(config, r, name, newName, x);
      }
    }
  }

  /** But the entry of a registered channel keeps its old skeleton. */
  lemma {:induction false} RenameKeepsFresh(config: Config, r: Registry, name: string, newName: string)
    requires Mirrors(config, r) && EntriesInHeap(r) && AllFresh(config, r)
    ensures AllFresh(config, Rename(config, r, name, newName).0) <==> !IsStaleRename(config, r, name, newName)
  {
    var (r', error) := Rename(config, r, name, newName);
    if error == None {
      var oldCf, cf := config.fold.casefold(name).value, config.fold.casefold(newName).value;
      RenameMovesName(config, r, name, newName);
      assert NameInv(config, r, oldCf) && IsFresh(config, r, oldCf);
      forall c | c in r'.chans && c != cf ensures IsFresh(config, r', c) {
        assert IsFresh(config, r, c);
      }
      assert IsFresh(config, r', cf) <==> !IsStaleRename(config, r, name, newName);
    }
  }

  // ---------------------------------------------------------------- runs

  /** The entry that the step deletes, if any, is fresh. */
  ghost predicate IsHarmless(config: Config, s: State, a: Action)
    requires Enabled(config, s, a)
  {
    match a
    case FinishJoin(t) => IsHarmlessCleanup(config, s, s.threads[t].ch, true)
    case FinishCleanup(t) => IsHarmlessCleanup(config, s, s.threads[t].ch, false)
    case Unregister(name, account) =>
      Owns(config, s.reg, name, account) ==> IsHarmlessUnregister(config, s, config.fold.casefold(name).value)
    case _ => true
  }

  ghost predicate IsHarmlessCleanup(config: Config, s: State, ch: Ch, afterJoin: bool)
    requires ch in s.reg.heap
  {
    IsFound(s.reg, ch) && Deletes(s.reg, s.reg.heap[ch].cf, afterJoin, IsLocked(s.threads, ch)) ==>
      IsFresh(config, s.reg, s.reg.heap[ch].cf)
  }

  /** Whether SetUnregistered does something. */
  predicate Owns(config: Config, r: Registry, name: string, account: string)
    requires EntriesInHeap(r)
  {
    var cf := config.fold.casefold(name);
    cf.Some? && cf.value in r.chans && r.heap[r.chans[cf.value].channel].founder == account
  }

  ghost predicate IsHarmlessUnregister(config: Config, s: State, cf: string)
    requires cf in s.reg.chans && s.reg.chans[cf].channel in s.reg.heap
  {
    var entry := s.reg.chans[cf];
    entry.pendingJoins == 0 && s.reg.heap[entry.channel].members == {} && !IsLocked(s.threads, entry.channel) ==>
      IsFresh(config, s.reg, cf)
  }

  function Dropped(r: Registry, ch: Ch): Registry
    requires ch in r.heap
  {
    r.(heap := r.heap[ch := r.heap[ch].(founder := "")])
  }

  lemma {:induction false} DropIsRightExactly(config: Config, s: State, cf: string)
    requires Mirrors(config, s.reg) && FoldsChannels(config.fold) && cf in s.reg.chans && s.reg.chans[cf].channel in s.reg.heap
    ensures var ch := s.reg.chans[cf].channel;
            var r' := CleanupInternal(Dropped(s.reg, ch), cf, s.reg.chans[cf], false, IsLocked(s.threads, ch));
            && (Mirrors(config, r') <==> IsHarmlessUnregister(config, s, cf))
            && (AllFresh(config, s.reg) ==> AllFresh(config, r'))
  {
    var ch := s.reg.chans[cf].channel;
    var dropped := Dropped(s.reg, ch);
    SameNamesMirror(config, s.reg, dropped);
    CleanupIsRightExactly(config, dropped, cf, false, IsLocked(s.threads, ch));
    assert IsFresh(config, dropped, cf) <==> IsFresh(config, s.reg, cf);
  }

  lemma {:induction false} UnregisterIsRightExactly(config: Config, s: State, a: Action)
    requires Mirrors(config, s.reg) && FoldsChannels(config.fold) && Enabled(config, s, a) && a.Unregister?
    ensures Mirrors(config, Next(config, s, a).reg) <==> IsHarmless(config, s, a)
    ensures AllFresh(config, s.reg) ==> AllFresh(config, Next(config, s, a).reg)
  {
    if Owns(config, s.reg, a.name, a.account) {
      var cf := config.fold.casefold(a.name).value;
      var ch := s.reg.chans[cf].channel;
      DropIsRightExactly(config, s, cf);
      assert Next(config, s, a).reg == CleanupInternal(Dropped(s.reg, ch), cf, s.reg.chans[cf], false, IsLocked(s.threads, ch));
    } else {
      assert Next(config, s, a).reg == s.reg;
    }
  }

  /** The other steps: registrations, members and writers. */
  lemma {:induction false} OtherStepKeepsNames(config: Config, s: State, a: Action)
    requires Enabled(config, s, a)
    requires !a.StartJoin? && !a.FinishJoin? && !a.FinishCleanup? && !a.Unregister? && !a.Renamed?
    ensures SameNames(s.reg, Next(config, s, a).reg)
  {
    if a.Register? && SetRegistered(config, s.reg, a.name, a.account, a.enabled).1 == None {
      var cf := config.fold.casefold(a.name).value;
      assert cf in s.reg.chans && s.reg.chans[cf].channel in s.reg.heap;
    }
  }

  lemma {:induction false} FreshIsHarmless(config: Config, s: State, a: Action)
    requires AllFresh(config, s.reg) && Enabled(config, s, a)
    ensures IsHarmless(config, s, a)
  {}

  /** A step leaves the set the mirror of the names if and only if it is harmless, and all entries fresh if
      and only if it does not rename a registered channel to another skeleton. */
  lemma {:induction false} StepMirrorsExactlyIfHarmless(config: Config, s: State, a: Action)
    requires Mirrors(config, s.reg) && FoldsChannels(config.fold) && Enabled(config, s, a)
    ensures Mirrors(config, Next(config, s, a).reg) <==> IsHarmless(config, s, a)
    ensures AllFresh(config, s.reg) ==>
              (AllFresh(config, Next(config, s, a).reg) <==> !(a.Renamed? && IsStaleRename(config, s.reg, a.name, a.newName)))
  {
    if a.StartJoin? {
      EnterKeepsMirror(config, s.reg, a.name, a.mayCreate, a.newCh);
    } else if a.FinishJoin? || a.FinishCleanup? {
      FoundCleanupIsRightExactly(config, s, s.threads[a.t].ch, a.FinishJoin?);
    } else if a.Unregister? {
      UnregisterIsRightExactly(config, s, a);
    } else if a.Renamed? {
      RenameKeepsMirror(config, s.reg, a.name, a.newName);
      if AllFresh(config, s.reg) {
        RenameKeepsFresh(config, s.reg, a.name, a.newName);
      }
    } else {
      OtherStepKeepsNames(config, s, a);
      SameNamesMirror(config, s.reg, Next(config, s, a).reg);
    }
  }

  lemma {:induction false} FoundCleanupIsRightExactly(config: Config, s: State, ch: Ch, afterJoin: bool)
    requires Mirrors(config, s.reg) && FoldsChannels(config.fold) && ch in s.reg.heap && EntriesInHeap(s.reg)
    ensures var r' := MaybeCleanup(s.reg, ch, afterJoin, IsLocked(s.threads, ch));
            && (Mirrors(config, r') <==> IsHarmlessCleanup(config, s, ch, afterJoin))
            && (AllFresh(config, s.reg) ==> AllFresh(config, r'))
  {
    if IsFound(s.reg, ch) {
      CleanupIsRightExactly(config, s.reg, s.reg.heap[ch].cf, afterJoin, IsLocked(s.threads, ch));
    }
  }

  ghost predicate AllHarmless(config: Config, s: State, actions: seq<Action>)
    decreases actions
  {
    actions != [] ==>
      && Enabled(config, s, actions[0]) && IsHarmless(config, s, actions[0])
      && AllHarmless(config, Next(config, s, actions[0]), actions[1..])
  }

  ghost predicate MirrorsThroughout(config: Config, s: State, actions: seq<Action>)
    decreases actions
  {
    && Mirrors(config, s.reg)
    && (actions != [] ==> Enabled(config, s, actions[0]) && MirrorsThroughout(config, Next(config, s, actions[0]), actions[1..]))
  }

  /** No registered channel is renamed to a name with another skeleton. */
  ghost predicate NoStaleRenames(config: Config, s: State, actions: seq<Action>)
    decreases actions
  {
    actions != [] && Enabled(config, s, actions[0]) ==>
      && !(actions[0].Renamed? && IsStaleRename(config, s.reg, actions[0].name, actions[0].newName))
      && NoStaleRenames(config, Next(config, s, actions[0]), actions[1..])
  }

  /** Through any run the set is the mirror of the names at every point if and only if no step deletes an
      entry that is not fresh. */
  lemma {:induction false} MirrorsExactlyIfHarmless(config: Config, s: State, actions: seq<Action>, s': State)
    requires Mirrors(config, s.reg) && FoldsChannels(config.fold) && IsRun(config, s, actions, s')
    ensures MirrorsThroughout(config, s, actions) <==> AllHarmless(config, s, actions)
    ensures AllHarmless(config, s, actions) ==> Mirrors(config, s'.reg)
    decreases actions
  {
    if actions != [] {
      var n := Next(config, s, actions[0]);
      StepMirrorsExactlyIfHarmless(config, s, actions[0]);
      if IsHarmless(config, s, actions[0]) {
        MirrorsExactlyIfHarmless(config, n, actions[1..], s');
      }
    }
  }

  lemma {:induction false} NoStaleRenamesIsHarmless(config: Config, s: State, actions: seq<Action>, s': State)
    requires Mirrors(config, s.reg) && AllFresh(config, s.reg) && FoldsChannels(config.fold)
    requires NoStaleRenames(config, s, actions) && IsRun(config, s, actions, s')
    ensures AllHarmless(config, s, actions)
    decreases actions
  {
    if actions != [] {
      FreshIsHarmless(config, s, actions[0]);
      StepMirrorsExactlyIfHarmless(config, s, actions[0]);
      NoStaleRenamesIsHarmless(config, Next(config, s, actions[0]), actions[1..], s');
    }
  }

  /** In every run from an empty registry, with joins, quits, cleanups, registrations and renames, as long as
      no registered channel is renamed to another skeleton, the set holds exactly the skeletons of the current
      channel names, which are distinct; every entry stands under its channel's casefolded name. */
  lemma {:induction false} SetIsMirror(config: Config, s: State, actions: seq<Action>, s': State)
    requires Init(s) && FoldsChannels(config.fold) && NoStaleRenames(config, s, actions) && IsRun(config, s, actions, s')
    ensures Mirrors(config, s'.reg)
  {
    NoStaleRenamesIsHarmless(config, s, actions, s');
    MirrorsExactlyIfHarmless(config, s, actions, s');
  }

  lemma {:induction false} RunExtends(config: Config, s: State, actions: seq<Action>, middle: State, a: Action)
    requires IsRun(config, s, actions, middle) && Enabled(config, middle, a)
    ensures IsRun(config, s, actions + [a], Next(config, middle, a))
    decreases actions
  {
    if actions == [] {
      assert [a][1..] == [];
    } else {
      assert (actions + [a])[1..] == actions[1..] + [a];
      RunExtends(config, Next(config, s, actions[0]), actions[1..], middle, a);
    }
  }

  ghost predicate Reaches(config: Config, s: State) {
    exists start, actions :: Init(start) && IsRun(config, start, actions, s)
  }

  lemma {:induction false} Do(config: Config, s: State, a: Action) returns (s': State)
    requires Reaches(config, s) && Enabled(config, s, a)
    ensures s' == Next(config, s, a) && Reaches(config, s')
  {
    var start, actions :| Init(start) && IsRun(config, start, actions, s);
    RunExtends(config, start, actions, s, a);
    s' := Next(config, s, a);
  }

  /** One channel, which was created under the skeleton `kept`. */
  function OneChannel(name: string, cf: string, founder: string, kept: string, pendingJoins: int, skeleton: string): Registry {
    Registry(map[cf := Entry(0, pendingJoins, kept)], {skeleton}, {}, map[0 := Channel(name, cf, {}, founder)])
  }

  lemma {:induction false} JoinAndRegister(config: Config, name: string, cf: string, sk: string, account: string) returns (s: State)
    requires config.fold.casefold(name) == Some(cf) && config.fold.skeleton(name) == Some(sk)
    requires |cf| <= config.channelLen && account != ""
    ensures Reaches(config, s) && s == State(OneChannel(name, cf, account, sk, 1, sk), map[0 := Joining(0, 0)], None)
  {
    s := State(Registry(map[], {}, {}, map[]), map[], None);
    assert IsRun(config, s, [], s);
    s := Do(config, s, StartJoin(0, 0, name, true, 0));
    assert s.reg == OneChannel(name, cf, "", sk, 1, sk);
    s := Do(config, s, Register(name, account, true));
  }

  lemma {:induction false} LeaveAndUnregister(config: Config, s: State, name: string, cf: string, sk: string, kept: string, account: string)
    returns (s': State)
    requires config.fold.casefold(name) == Some(cf) && account != "" && sk != kept
    requires Reaches(config, s) && s == State(OneChannel(name, cf, account, kept, 1, sk), map[0 := Joining(0, 0)], None)
    ensures Reaches(config, s') && s'.threads == map[] && s'.checking == None
    ensures s'.reg.chans == map[] && s'.reg.skeletons == {sk}
  {
    s' := Do(config, s, RefuseJoin(0));
    s' := Do(config, s', FinishJoin(0));
    assert s'.reg == OneChannel(name, cf, account, kept, 0, sk) && s'.threads == map[];
    s' := Do(config, s', Unregister(name, account));
  }

  /** Somebody creates a channel, registers and renames it, and unregisters it when it is empty: no channel is
      left, but names with the new skeleton are refused from then on. */
  lemma {:induction false} RegisteredRenameBreaks(config: Config, name: string, newName: string, account: string) returns (s: State)
    requires config.fold.casefold(name).Some? && config.fold.skeleton(name).Some? && account != ""
    requires config.fold.casefold(newName).Some? && config.fold.skeleton(newName).Some?
    requires config.fold.skeleton(newName) != config.fold.skeleton(name)
    requires |config.fold.casefold(name).value| <= config.channelLen
    ensures Reaches(config, s) && s.threads == map[] && s.checking == None && s.reg.chans == map[]
    ensures s.reg.skeletons == {config.fold.skeleton(newName).value} && !Mirrors(config, s.reg)
  {
    var cf, cf' := config.fold.casefold(name).value, config.fold.casefold(newName).value;
    var sk, sk' := config.fold.skeleton(name).value, config.fold.skeleton(newName).value;
    s := JoinAndRegister(config, name, cf, sk, account);
    s := Do(config, s, Renamed(name, newName));
    assert s.reg == OneChannel(newName, cf', account, sk, 1, sk');
    s := LeaveAndUnregister(config, s, newName, cf', sk', sk, account);
    assert sk' in s.reg.skeletons && !IsUsed(config, s.reg, sk');
  }
}
