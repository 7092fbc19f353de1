/** The channel registry (irc/channelmanager.go) with the membership steps of irc/channel.go.

    The registry is a value with one function per critical section of ChannelManager; a Channel object
    is a number, its fields are in `heap`, which also keeps channels that are no longer registered
    anywhere. Joins, quits, cleanups and writers of channels in flight are threads, and a run of actions is
    an interleaving of them with renames and (un)registrations. */
module ChannelRegistry {
  import opened Common

  type Ch = nat
  type Tid = nat
  type Client = nat

  /** `founder` is "" for an unregistered channel. */
  datatype Channel = Channel(name: string, cf: string, members: set<Client>, founder: string)

  datatype Entry = Entry(channel: Ch, pendingJoins: int, skeleton: string)

  datatype Error =
    | NoSuchChannel | ChannelPurged | InsufficientPrivs | Confusable
    | InvalidName | NameInUse | AuthRequired | FeatureDisabled | AlreadyRegistered | NotOwned

  datatype Registry = Registry(chans: map<string, Entry>, skeletons: set<string>, purged: set<string>,
                               heap: map<Ch, Channel>)

  datatype Config = Config(fold: Folding, channelLen: nat)

  // ---------------------------------------------------------------- critical sections

  /** First section of ChannelManager.Join: finds or creates the channel and counts the join.
      `mayCreate` is the outcome of the OpOnlyCreation check; `newCh` is a new object. */
  function Enter(config: Config, r: Registry, name: string, mayCreate: bool, newCh: Ch): (Registry, Result<Ch, Error>) {
    match (config.fold.casefold(name), config.fold.skeleton(name))
    case (Some(cf), Some(skeleton)) =>
      if |cf| > config.channelLen then (r, Err(NoSuchChannel))
      else if cf in r.purged then (r, Err(ChannelPurged))
      else if cf in r.chans then
        var entry := r.chans[cf];
        (r.(chans := r.chans[cf := entry.(pendingJoins := entry.pendingJoins + 1)]), Ok(entry.channel))
      else if !mayCreate then (r, Err(InsufficientPrivs))
      else if skeleton in r.skeletons then (r, Err(Confusable))
      else
        (r.(chans := r.chans[cf := Entry(newCh, 1, skeleton)],
            skeletons := r.skeletons + {skeleton},
            heap := r.heap[newCh := Channel(name, cf, {}, "")]), Ok(newCh))
    case _ => (r, Err(NoSuchChannel))
  }

  /** IsClean: `busy` is a failed TryLock of the writeback lock. */
  predicate IsClean(c: Channel, busy: bool) { !busy && c.members == {} && c.founder == "" }

  function CleanupInternal(r: Registry, cf: string, entry: Entry, afterJoin: bool, busy: bool): Registry
    requires entry.channel in r.heap
  {
    var counted := if afterJoin then entry.(pendingJoins := entry.pendingJoins - 1) else entry;
    if counted.pendingJoins == 0 && IsClean(r.heap[entry.channel], busy) then
      r.(chans := r.chans - {cf},
         skeletons := if counted.skeleton != "" then r.skeletons - {counted.skeleton} else r.skeletons)
    else r.(chans := r.chans[cf := counted])
  }

  function MaybeCleanup(r: Registry, ch: Ch, afterJoin: bool, busy: bool): Registry
    requires ch in r.heap
  {
    var cf := r.heap[ch].cf;
    if cf !in r.chans || r.chans[cf].channel != ch then r
    else CleanupInternal(r, cf, r.chans[cf], afterJoin, busy)
  }

  function SetRegistered(config: Config, r: Registry, name: string, account: string, enabled: bool): (Registry, Option<Error>)
    requires EntriesInHeap(r)
  {
    if account == "" then (r, Some(AuthRequired))
    else if !enabled then (r, Some(FeatureDisabled))
    else match config.fold.casefold(name)
      case None => (r, Some(NoSuchChannel))
      case Some(cf) =>
        if cf !in r.chans then (r, Some(NoSuchChannel))
        else
          var ch := r.chans[cf].channel;
          if r.heap[ch].founder != "" then (r, Some(AlreadyRegistered))
          else (r.(heap := r.heap[ch := r.heap[ch].(founder := account)]), None)
  }

  function SetUnregistered(config: Config, r: Registry, name: string, account: string, busy: bool): (Registry, Option<Error>)
    requires EntriesInHeap(r)
  {
    match config.fold.casefold(name)
    case None => (r, Some(NoSuchChannel))
    case Some(cf) =>
      if cf !in r.chans then (r, None)
      else
        var ch := r.chans[cf].channel;
        if r.heap[ch].founder != account then (r, Some(NotOwned))
        else
          var dropped := r.(heap := r.heap[ch := r.heap[ch].(founder := "")]);
          (CleanupInternal(dropped, cf, r.chans[cf], false, busy), None)
  }

  function Rename(config: Config, r: Registry, name: string, newName: string): (Registry, Option<Error>)
    requires EntriesInHeap(r)
  {
    match (config.fold.casefold(name), config.fold.casefold(newName), config.fold.skeleton(newName))
    case (None, _, _) => (r, Some(NoSuchChannel))
    case (Some(oldCf), Some(newCf), Some(newSkeleton)) =>
      if oldCf !in r.chans then (r, Some(NoSuchChannel))
      else
        var entry := r.chans[oldCf];
        var channel := r.heap[entry.channel];
        (match config.fold.skeleton(channel.name)
         case None => (r, Some(NoSuchChannel))
         case Some(oldSkeleton) =>
           if newCf != oldCf && newCf in r.chans then (r, Some(NameInUse))
           else if oldSkeleton != newSkeleton && newSkeleton in r.skeletons then (r, Some(Confusable))
           else
             var renamed := if channel.founder == "" then entry.(skeleton := newSkeleton) else entry;
             (r.(chans := (r.chans - {oldCf})[newCf := renamed],
                 skeletons := r.skeletons - {oldSkeleton} + {newSkeleton},
                 heap := r.heap[entry.channel := channel.(name := newName, cf := newCf)]), None))
    case _ => (r, Some(InvalidName))
  }

  ghost predicate EntriesInHeap(r: Registry) {
    forall cf :: cf in r.chans ==> r.chans[cf].channel in r.heap
  }

  // ---------------------------------------------------------------- interleavings

  datatype Thread =
    | Joining(ch: Ch, client: Client)   // counted, Channel.Join not finished
    | Joined(ch: Ch)                    // Channel.Join has returned
    | Cleaning(ch: Ch)                  // has seen the channel empty, calls Cleanup next
    | Holding(ch: Ch)                   // has the writeback lock: writeLoop or Store in performWrite
    | Released(ch: Ch)                  // has released it, and tests for dirty bits and members next
    | Retrying(ch: Ch)                  // has seen dirty bits, before the TryLock

  /** `checking` is the channel whose writeback lock IsClean holds, within a section of the manager. */
  datatype State = State(reg: Registry, threads: map<Tid, Thread>, checking: Option<Ch>)

  datatype Action =
    | StartJoin(t: Tid, client: Client, name: string, mayCreate: bool, newCh: Ch)
    | AddMember(t: Tid)
    | RefuseJoin(t: Tid)
    | FinishJoin(t: Tid)
    | Quit(t: Tid, ch: Ch, client: Client)
    | FinishCleanup(t: Tid)
    | Register(name: string, account: string, enabled: bool)
    | Unregister(name: string, account: string)
    | Renamed(name: string, newName: string)
    | BeginCheck(ch: Ch)                // a section that will end with a cleanup takes the lock in IsClean
    | StartWriter(t: Tid, ch: Ch)       // wakeWriter or Store takes the lock
    | EndWrite(t: Tid)
    | TestWriter(t: Tid, isDirty: bool)
    | Retry(t: Tid)

  /** Whether a writer has the writeback lock. */
  ghost predicate IsLocked(threads: map<Tid, Thread>, ch: Ch) {
    exists t :: t in threads && threads[t] == Holding(ch)
  }

  /** Whether the manager's lock can be taken by a section that ends with maybeCleanup: it is free, or the
      section is the one that is now in IsClean. */
  ghost predicate MayCleanup(s: State, ch: Ch, afterJoin: bool)
    requires ch in s.reg.heap
  {
    s.checking.None? ||
    (s.checking == Some(ch) && IsFound(s.reg, ch) &&
     s.reg.chans[s.reg.heap[ch].cf].pendingJoins == if afterJoin then 1 else 0)
  }

  ghost predicate Enabled(config: Config, s: State, a: Action) {
    && EntriesInHeap(s.reg)
    && match a
       case StartJoin(t, _, _, _, newCh) => s.checking.None? && t !in s.threads && newCh !in s.reg.heap
       case AddMember(t) => t in s.threads && s.threads[t].Joining? && s.threads[t].ch in s.reg.heap
       case RefuseJoin(t) => t in s.threads && s.threads[t].Joining?
       case FinishJoin(t) =>
         t in s.threads && s.threads[t].Joined? && s.threads[t].ch in s.reg.heap && MayCleanup(s, s.threads[t].ch, true)
       case Quit(t, ch, _) => t !in s.threads && ch in s.reg.heap
       case FinishCleanup(t) =>
         t in s.threads && s.threads[t].Cleaning? && s.threads[t].ch in s.reg.heap && MayCleanup(s, s.threads[t].ch, false)
       case Unregister(name, account) =>
         var cf := config.fold.casefold(name);
         if cf.Some? && cf.value in s.reg.chans && s.reg.heap[s.reg.chans[cf.value].channel].founder == account
         then MayCleanup(s, s.reg.chans[cf.value].channel, false) else s.checking.None?
       case Register(_, _, _) => s.checking.None?
       case Renamed(_, _) => s.checking.None?
       case BeginCheck(ch) => s.checking.None? && ch in s.reg.heap && !IsLocked(s.threads, ch)
       case StartWriter(t, ch) => t !in s.threads && ch in s.reg.heap && !IsLocked(s.threads, ch) && s.checking != Some(ch)
       case EndWrite(t) => t in s.threads && s.threads[t].Holding?
       case TestWriter(t, _) => t in s.threads && s.threads[t].Released? && s.threads[t].ch in s.reg.heap
       case Retry(t) => t in s.threads && s.threads[t].Retrying?
  }

  function SetMembers(r: Registry, ch: Ch, members: set<Client>): Registry
    requires ch in r.heap
  {
    r.(heap := r.heap[ch := r.heap[ch].(members := members)])
  }

  /** The manager's section has ended with this registry. */
  function Leave(s: State, reg: Registry): State {
    s.(reg := reg, checking := None)
  }

  ghost function Next(config: Config, s: State, a: Action): State
    requires Enabled(config, s, a)
  {
    match a
    case StartJoin(t, client, name, mayCreate, newCh) =>
      var (reg, result) := Enter(config, s.reg, name, mayCreate, newCh);
      if result.Ok? then s.(reg := reg, threads := s.threads[t := Joining(result.value, client)]) else s
    case AddMember(t) =>
      var Joining(ch, client) := s.threads[t];
      s.(reg := SetMembers(s.reg, ch, s.reg.heap[ch].members + {client}), threads := s.threads[t := Joined(ch)])
    case RefuseJoin(t) => s.(threads := s.threads[t := Joined(s.threads[t].ch)])
    case FinishJoin(t) =>
      var ch := s.threads[t].ch;
      Leave(s, MaybeCleanup(s.reg, ch, true, IsLocked(s.threads, ch))).(threads := s.threads - {t})
    case Quit(t, ch, client) =>
      var members := s.reg.heap[ch].members - {client};
      s.(reg := SetMembers(s.reg, ch, members), threads := if members == {} then s.threads[t := Cleaning(ch)] else s.threads)
    case FinishCleanup(t) =>
      var ch := s.threads[t].ch;
      Leave(s, MaybeCleanup(s.reg, ch, false, IsLocked(s.threads, ch))).(threads := s.threads - {t})
    case Register(name, account, enabled) => s.(reg := SetRegistered(config, s.reg, name, account, enabled).0)
    case Unregister(name, account) =>
      var cf := config.fold.casefold(name);
      var busy := cf.Some? && cf.value in s.reg.chans && IsLocked(s.threads, s.reg.chans[cf.value].channel);
      Leave(s, SetUnregistered(config, s.reg, name, account, busy).0)
    case Renamed(name, newName) => s.(reg := Rename(config, s.reg, name, newName).0)
    case BeginCheck(ch) => s.(checking := Some(ch))
    case StartWriter(t, ch) => s.(threads := s.threads[t := Holding(ch)])
    case EndWrite(t) => s.(threads := s.threads[t := Released(s.threads[t].ch)])
    case TestWriter(t, isDirty) =>
      var ch := s.threads[t].ch;
      if isDirty then s.(threads := s.threads[t := Retrying(ch)])
      else if s.reg.heap[ch].members == {} then s.(threads := s.threads[t := Cleaning(ch)])
      else s.(threads := s.threads - {t})
    case Retry(t) =>
      var ch := s.threads[t].ch;
      if IsLocked(s.threads, ch) || s.checking == Some(ch) then s.(threads := s.threads - {t})
      else s.(threads := s.threads[t := Holding(ch)])
  }

  ghost predicate IsRun(config: Config, s: State, actions: seq<Action>, s': State)
    decreases actions
  {
    if actions == [] then s' == s
    else Enabled(config, s, actions[0]) && IsRun(config, Next(config, s, actions[0]), actions[1..], s')
  }

  ghost predicate Init(s: State) {
    s.threads == map[] && s.checking == None && s.reg.chans == map[] && s.reg.skeletons == {} && s.reg.heap == map[]
  }

  // ---------------------------------------------------------------- what each section answers and changes

  /** Join finds the channel under the name, or creates one that is not confusable, unless the name is unusable
      or purged, or the client may not create channels. */
  lemma {:induction false} EnterOutcome(config: Config, r: Registry, name: string, mayCreate: bool, newCh: Ch)
    ensures var (r', result) := Enter(config, r, name, mayCreate, newCh);
            var cf, skeleton := config.fold.casefold(name), config.fold.skeleton(name);
            var usable := cf.Some? && skeleton.Some? && |cf.value| <= config.channelLen;
            && (result == Err(NoSuchChannel) <==> !usable)
            && (result == Err(ChannelPurged) <==> usable && cf.value in r.purged)
            && (result == Err(InsufficientPrivs) <==> usable && cf.value !in r.purged && cf.value !in r.chans && !mayCreate)
            && (result == Err(Confusable) <==>
                  usable && cf.value !in r.purged && cf.value !in r.chans && mayCreate && skeleton.value in r.skeletons)
            && (result.Ok? <==>
                  usable && cf.value !in r.purged && (cf.value in r.chans || (mayCreate && skeleton.value !in r.skeletons)))
            && (result.Err? ==> r' == r)
            && (result.Ok? && cf.value in r.chans ==>
                  var entry := r.chans[cf.value];
                  result.value == entry.channel &&
                  r' == r.(chans := r.chans[cf.value := Entry(entry.channel, entry.pendingJoins + 1, entry.skeleton)]))
            && (result.Ok? && cf.value !in r.chans ==>
                  && result.value == newCh && r'.chans == r.chans[cf.value := Entry(newCh, 1, skeleton.value)]
                  && r'.skeletons == r.skeletons + {skeleton.value} && r'.purged == r.purged
                  && r'.heap == r.heap[newCh := Channel(name, cf.value, {}, "")])
  {
  }

  /** A cleanup takes an entry away exactly if no other join is pending, nobody is in the channel, nobody owns
      it, and its lock is free. */
  lemma {:induction false} CleanupOutcome(r: Registry, ch: Ch, afterJoin: bool, busy: bool)
    requires ch in r.heap
    ensures var r', cf := MaybeCleanup(r, ch, afterJoin, busy), r.heap[ch].cf;
            && r'.heap == r.heap && r'.purged == r.purged
            && (cf !in r.chans || r.chans[cf].channel != ch ==> r' == r)
            && (cf in r.chans && r.chans[cf].channel == ch ==>
                  var left := r.chans[cf].pendingJoins - if afterJoin then 1 else 0;
                  && r'.chans == (if left == 0 && r.heap[ch].members == {} && r.heap[ch].founder == "" && !busy
                                  then r.chans - {cf} else r.chans[cf := r.chans[cf].(pendingJoins := left)]))
  {
  }

  /** A channel can be registered once, by an account that is logged in. */
  lemma {:induction false} RegistrationOutcome(config: Config, r: Registry, name: string, account: string, enabled: bool)
    requires EntriesInHeap(r)
    ensures var (r', error) := SetRegistered(config, r, name, account, enabled);
            var cf := config.fold.casefold(name);
            var found := cf.Some? && cf.value in r.chans;
            && (error == Some(AuthRequired) <==> account == "")
            && (error == Some(FeatureDisabled) <==> account != "" && !enabled)
            && (error == Some(NoSuchChannel) <==> account != "" && enabled && !found)
            && (error == Some(AlreadyRegistered) <==>
                  account != "" && enabled && found && r.heap[r.chans[cf.value].channel].founder != "")
            && (error == None <==> account != "" && enabled && found && r.heap[r.chans[cf.value].channel].founder == "")
            && (error.Some? ==> r' == r)
            && (error.None? ==>
                  var ch := r.chans[cf.value].channel;
                  r' == r.(heap := r.heap[ch := Channel(r.heap[ch].name, r.heap[ch].cf, r.heap[ch].members, account)]))
  {
  }

  /** It can be unregistered for its founder only. */
  lemma {:induction false} UnregistrationOutcome(config: Config, r: Registry, name: string, account: string, busy: bool)
    requires EntriesInHeap(r)
    ensures var (r', error) := SetUnregistered(config, r, name, account, busy);
            var cf := config.fold.casefold(name);
            var found := cf.Some? && cf.value in r.chans;
            && (error == Some(NoSuchChannel) <==> cf.None?)
            && (error == Some(NotOwned) <==> found && r.heap[r.chans[cf.value].channel].founder != account)
            && (error == None <==> cf.Some? && (found ==> r.heap[r.chans[cf.value].channel].founder == account))
            && (error.Some? || !found ==> r' == r)
            && (error.None? && found ==>
                  var ch := r.chans[cf.value].channel;
                  && r'.heap == r.heap[ch := Channel(r.heap[ch].name, r.heap[ch].cf, r.heap[ch].members, "")]
                  && r'.purged == r.purged
                  && r'.chans == (if r.chans[cf.value].pendingJoins == 0 && r.heap[ch].members == {} && !busy
                                  then r.chans - {cf.value} else r.chans))
  {
    var cf := config.fold.casefold(name);
    if cf.Some? && cf.value in r.chans {
      assert r.chans[cf.value := r.chans[cf.value]] == r.chans;
    }
  }

  /** A channel is renamed if the new name can be used, is free, and is not confusable with one that is taken. */
  lemma {:induction false} RenameOutcome(config: Config, r: Registry, name: string, newName: string)
    requires EntriesInHeap(r)
    ensures var (r', error) := Rename(config, r, name, newName);
            var cf, newCf, newSkeleton := config.fold.casefold(name), config.fold.casefold(newName), config.fold.skeleton(newName);
            && (error.Some? ==> r' == r)
            && (cf.None? ==> error == Some(NoSuchChannel))
            && (cf.Some? && (newCf.None? || newSkeleton.None?) ==> error == Some(InvalidName))
            && (cf.Some? && newCf.Some? && newSkeleton.Some? ==>
                  if cf.value !in r.chans then error == Some(NoSuchChannel)
                  else
                    var entry := r.chans[cf.value];
                    var channel := r.heap[entry.channel];
                    var skeleton := config.fold.skeleton(channel.name);
                    && (error == Some(NoSuchChannel) <==> skeleton.None?)
                    && (error == Some(NameInUse) <==> skeleton.Some? && newCf != cf && newCf.value in r.chans)
                    && (error == Some(Confusable) <==>
                          && skeleton.Some? && (newCf == cf || newCf.value !in r.chans)
                          && newSkeleton != skeleton && newSkeleton.value in r.skeletons)
                    && error !in {Some(InvalidName), Some(NotOwned), Some(InsufficientPrivs)}
                    && (error.None? ==>
                          && r'.heap == r.heap[entry.channel := Channel(newName, newCf.value, channel.members, channel.founder)]
                          && r'.chans.Keys == r.chans.Keys - {cf.value} + {newCf.value}
                          && r'.chans[newCf.value].channel == entry.channel
                          && r'.chans[newCf.value].pendingJoins == entry.pendingJoins
                          && (forall other :: other in r.chans && other != cf.value ==> r'.chans[other] == r.chans[other])
                          && r'.skeletons == r.skeletons - {skeleton.value} + {newSkeleton.value} && r'.purged == r.purged))
  {
  }

  /** A step changes the founder of a channel only from nobody, by a registration of that account, or to nobody,
      by an unregistration of the founder itself. */
  lemma {:induction false} StepKeepsFounder(config: Config, s: State, a: Action, ch: Ch)
    requires Enabled(config, s, a) && ch in s.reg.heap
    ensures var n := Next(config, s, a);
            && ch in n.reg.heap
            && (n.reg.heap[ch].founder != s.reg.heap[ch].founder ==>
                  || (s.reg.heap[ch].founder == "" && a.Register? && n.reg.heap[ch].founder == a.account)
                  || (n.reg.heap[ch].founder == "" && a.Unregister? && s.reg.heap[ch].founder == a.account))
  {
    if a.StartJoin? {
      EnterOutcome(config, s.reg, a.name, a.mayCreate, a.newCh);
    } else if a.Register? {
      RegistrationOutcome(config, s.reg, a.name, a.account, a.enabled);
    } else if a.Unregister? {
      var cf := config.fold.casefold(a.name);
      UnregistrationOutcome(config, s.reg, a.name, a.account,
                            cf.Some? && cf.value in s.reg.chans && IsLocked(s.threads, s.reg.chans[cf.value].channel));
    } else if a.Renamed? {
      RenameOutcome(config, s.reg, a.name, a.newName);
    }
  }

  /** Who becomes a member of which channel and who ceases to be one. */
  lemma {:induction false} StepChangesMembers(config: Config, s: State, a: Action, ch: Ch, client: Client)
    requires Enabled(config, s, a) && ch in s.reg.heap
    ensures ch in Next(config, s, a).reg.heap
    ensures var joins := a.AddMember? && s.threads[a.t] == Joining(ch, client);
            var leaves := a.Quit? && a.ch == ch && a.client == client;
            client in Next(config, s, a).reg.heap[ch].members <==> joins || (client in s.reg.heap[ch].members && !leaves)
  {
    if a.StartJoin? {
      EnterOutcome(config, s.reg, a.name, a.mayCreate, a.newCh);
    } else if a.Register? {
      RegistrationOutcome(config, s.reg, a.name, a.account, a.enabled);
    } else if a.Unregister? {
      var cf := config.fold.casefold(a.name);
      UnregistrationOutcome(config, s.reg, a.name, a.account,
                            cf.Some? && cf.value in s.reg.chans && IsLocked(s.threads, s.reg.chans[cf.value].channel));
    } else if a.Renamed? {
      RenameOutcome(config, s.reg, a.name, a.newName);
    }
  }

  /** What a quit and a writer do next: the one that empties the channel cleans up, the other writes again as
      long as bits are dirty and the lock is to be had, and cleans up if it leaves an empty channel. */
  lemma {:induction false} StepGoesOn(config: Config, s: State, a: Action)
    requires Enabled(config, s, a)
    ensures var n := Next(config, s, a);
            && (a.Quit? ==> (a.t in n.threads <==> s.reg.heap[a.ch].members <= {a.client}))
            && (a.Quit? && a.t in n.threads ==> n.threads[a.t] == Cleaning(a.ch))
            && (a.TestWriter? ==>
                  var ch := s.threads[a.t].ch;
                  && (a.t in n.threads <==> a.isDirty || s.reg.heap[ch].members == {})
                  && (a.t in n.threads ==> n.threads[a.t] == if a.isDirty then Retrying(ch) else Cleaning(ch)))
            && (a.Retry? ==>
                  var ch := s.threads[a.t].ch;
                  && (a.t in n.threads <==> !IsLocked(s.threads, ch) && s.checking != Some(ch))
                  && (a.t in n.threads ==> n.threads[a.t] == Holding(ch)))
  {
  }

  predicate IsRegistrationBy(a: Action, account: string) { a.Register? && a.account == account && a.enabled }

  /** Over every run a channel stays with its founder until that account itself unregisters it. */
  lemma {:induction false} FounderStays(config: Config, s: State, actions: seq<Action>, s': State, ch: Ch)
    requires IsRun(config, s, actions, s') && ch in s.reg.heap && s.reg.heap[ch].founder != ""
    requires forall a :: a in actions ==> !(a.Unregister? && a.account == s.reg.heap[ch].founder)
    ensures ch in s'.reg.heap && s'.reg.heap[ch].founder == s.reg.heap[ch].founder
    decreases actions
  {
    if actions != [] {
      assert actions[0] in actions;
      StepKeepsFounder(config, s, actions[0], ch);
      FounderStays(config, Next(config, s, actions[0]), actions[1..], s', ch);
    }
  }

  /** Nobody owns a channel without having registered it. */
  lemma {:induction false} FounderHasRegistered(config: Config, s: State, actions: seq<Action>, s': State, ch: Ch)
    requires IsRun(config, s, actions, s') && ch in s'.reg.heap && s'.reg.heap[ch].founder != ""
    requires ch in s.reg.heap ==> s.reg.heap[ch].founder != s'.reg.heap[ch].founder
    ensures exists a :: a in actions && IsRegistrationBy(a, s'.reg.heap[ch].founder)
    decreases actions
  {
    if actions != [] {
      var n, founder := Next(config, s, actions[0]), s'.reg.heap[ch].founder;
      StepFounds(config, s, actions[0], ch);
      if ch in n.reg.heap && n.reg.heap[ch].founder == founder {
        assert actions[0] in actions && IsRegistrationBy(actions[0], founder);
      } else {
        FounderHasRegistered(config, n, actions[1..], s', ch);
        var a :| a in actions[1..] && IsRegistrationBy(a, founder);
        assert a in actions;
      }
    }
  }

  lemma {:induction false} StepFounds(config: Config, s: State, a: Action, ch: Ch)
    requires Enabled(config, s, a)
    ensures var n := Next(config, s, a);
            ch in n.reg.heap && n.reg.heap[ch].founder != "" && (ch !in s.reg.heap || s.reg.heap[ch].founder != n.reg.heap[ch].founder) ==>
              IsRegistrationBy(a, n.reg.heap[ch].founder)
  {
    if ch in s.reg.heap {
      StepKeepsFounder(config, s, a, ch);
      if a.Register? {
        RegistrationOutcome(config, s.reg, a.name, a.account, a.enabled);
      }
    } else if a.StartJoin? {
      EnterOutcome(config, s.reg, a.name, a.mayCreate, a.newCh);
    } else if a.Renamed? {
      RenameOutcome(config, s.reg, a.name, a.newName);
    }
  }

  // ---------------------------------------------------------------- who is found where

  predicate JoinOn(pc: Thread, ch: Ch) { (pc.Joining? || pc.Joined?) && pc.ch == ch }

  ghost function JoinsInFlight(threads: map<Tid, Thread>, ch: Ch): set<Tid> {
    set t | t in threads && JoinOn(threads[t], ch)
  }

  ghost function Joins(threads: map<Tid, Thread>): Ch -> set<Tid> {
    ch => JoinsInFlight(threads, ch)
  }

  ghost function With(joins: Ch -> set<Tid>, ch: Ch, t: Tid): Ch -> set<Tid> {
    other => if other == ch then joins(ch) + {t} else joins(other)
  }

  ghost function Without(joins: Ch -> set<Tid>, t: Tid): Ch -> set<Tid> {
    ch => joins(ch) - {t}
  }

  ghost predicate IsFound(r: Registry, ch: Ch)
    requires ch in r.heap
  {
    r.heap[ch].cf in r.chans && r.chans[r.heap[ch].cf].channel == ch
  }

  /** The entry stands under the current casefolded name of its channel and counts the joins on it. */
  ghost predicate EntryInv(r: Registry, joins: Ch -> set<Tid>, cf: string)
    requires cf in r.chans
  {
    var entry := r.chans[cf];
    && entry.channel in r.heap && r.heap[entry.channel].cf == cf
    && entry.pendingJoins == |joins(entry.channel)|
  }

  /** A channel with a member or a join in flight is the one that the registry finds. */
  ghost predicate ChannelInv(r: Registry, joins: Ch -> set<Tid>, ch: Ch)
    requires ch in r.heap
  {
    r.heap[ch].members != {} || joins(ch) != {} ==> IsFound(r, ch)
  }

  ghost predicate RegInv(r: Registry, joins: Ch -> set<Tid>) {
    && (forall cf :: cf in r.chans ==> EntryInv(r, joins, cf))
    && (forall ch :: ch in r.heap ==> ChannelInv(r, joins, ch))
  }

  ghost predicate Inv(s: State) {
    && (forall t :: t in s.threads ==> s.threads[t].ch in s.reg.heap)
    && RegInv(s.reg, Joins(s.threads))
  }

  // ---------------------------------------------------------------- every step keeps the invariant

  lemma {:induction false} EnterKeepsInv(config: Config, r: Registry, joins: Ch -> set<Tid>, name: string, mayCreate: bool, newCh: Ch, t: Tid)
    requires RegInv(r, joins) && newCh !in r.heap && joins(newCh) == {} && forall ch :: t !in joins(ch)
    ensures var (r', result) := Enter(config, r, name, mayCreate, newCh);
            && (result.Err? ==> r' == r)
            && (result.Ok? ==> result.value in r'.heap && r'.heap.Keys >= r.heap.Keys &&
                               RegInv(r', With(joins, result.value, t)))
  {
    var (r', result) := Enter(config, r, name, mayCreate, newCh);
    if result.Ok? {
      var joins' := With(joins, result.value, t);
      forall cf | cf in r'.chans ensures EntryInv(r', joins', cf) {
        if cf in r.chans { assert EntryInv(r, joins, cf); }
      }
      forall ch | ch in r'.heap ensures ChannelInv(r', joins', ch) {
        if ch in r.heap { assert ChannelInv(r, joins, ch); }
        if result.value in r.heap { assert EntryInv(r, joins, config.fold.casefold(name).value); }
      }
    }
  }

  lemma {:induction false} OtherEntryKeepsCount(r: Registry, joins: Ch -> set<Tid>, cf: string, entry: Entry, t: Tid, c: string)
    requires cf in r.chans && c in r.chans && c != cf && EntryInv(r, joins, c) && t !in joins(r.chans[c].channel)
    ensures EntryInv(r.(chans := r.chans[cf := entry]), Without(joins, t), c)
  {
    assert joins(r.chans[c].channel) - {t} == joins(r.chans[c].channel);
  }

  lemma {:induction false} CountedChannelIsFound(r: Registry, joins: Ch -> set<Tid>, cf: string, entry: Entry, t: Tid, ch: Ch)
    requires cf in r.chans && entry.channel == r.chans[cf].channel && ch in r.heap && ChannelInv(r, joins, ch)
    ensures ChannelInv(r.(chans := r.chans[cf := entry]), Without(joins, t), ch)
  {
  }

  /** An entry loses the join `t`, if it was on it, and stays. */
  lemma {:induction false} CountKeepsInv(r: Registry, joins: Ch -> set<Tid>, cf: string, entry: Entry, t: Tid)
    requires RegInv(r, joins) && cf in r.chans
    requires entry == r.chans[cf].(pendingJoins := |joins(r.chans[cf].channel) - {t}|)
    requires forall other :: other != entry.channel ==> t !in joins(other)
    ensures RegInv(r.(chans := r.chans[cf := entry]), Without(joins, t))
  {
    var r' := r.(chans := r.chans[cf := entry]);
    assert EntryInv(r, joins, cf);
    forall c | c in r'.chans ensures EntryInv(r', Without(joins, t), c) {
      if c != cf {
        assert EntryInv(r, joins, c);
        OtherEntryKeepsCount(r, joins, cf, entry, t, c);
      }
    }
    forall other | other in r'.heap ensures ChannelInv(r', Without(joins, t), other) {
      assert ChannelInv(r, joins, other);
      CountedChannelIsFound(r, joins, cf, entry, t, other);
    }
  }

  /** An entry of a channel without members or joins goes. */
  lemma {:induction false} DeletionKeepsInv(r: Registry, joins: Ch -> set<Tid>, cf: string, skeletons: set<string>)
    requires RegInv(r, joins) && cf in r.chans
    requires r.chans[cf].pendingJoins == 0 && r.heap[r.chans[cf].channel].members == {}
    ensures RegInv(r.(chans := r.chans - {cf}, skeletons := skeletons), joins)
  {
    var r' := r.(chans := r.chans - {cf}, skeletons := skeletons);
    var ch := r.chans[cf].channel;
    assert EntryInv(r, joins, cf);
    forall c | c in r'.chans ensures EntryInv(r', joins, c) {
      assert EntryInv(r, joins, c);
    }
    forall other | other in r'.heap ensures ChannelInv(r', joins, other) {
      assert ChannelInv(r, joins, other);
      assert other == ch ==> |joins(other)| == 0;
    }
  }

  /** What MaybeCleanup does to a registered channel, with the number of joins that are left. */
  lemma {:induction false} CleanupOfFound(r: Registry, ch: Ch, afterJoin: bool, busy: bool, left: int)
    requires ch in r.heap && IsFound(r, ch)
    requires left == r.chans[r.heap[ch].cf].pendingJoins - if afterJoin then 1 else 0
    ensures var cf := r.heap[ch].cf;
            var counted := r.(chans := r.chans[cf := r.chans[cf].(pendingJoins := left)]);
            var r' := MaybeCleanup(r, ch, afterJoin, busy);
            if left == 0 && IsClean(r.heap[ch], busy)
            then r' == counted.(chans := counted.chans - {cf}, skeletons := r'.skeletons)
            else r' == counted
  {
    var cf := r.heap[ch].cf;
    assert r.chans[cf := r.chans[cf].(pendingJoins := left)] - {cf} == r.chans - {cf};
  }

  lemma {:induction false} CleanupKeepsInv(r: Registry, joins: Ch -> set<Tid>, ch: Ch, afterJoin: bool, busy: bool, t: Tid)
    requires RegInv(r, joins) && ch in r.heap && (afterJoin <==> t in joins(ch))
    requires forall other :: other != ch ==> t !in joins(other)
    ensures var r' := MaybeCleanup(r, ch, afterJoin, busy);
            r'.heap == r.heap && RegInv(r', Without(joins, t))
  {
    if IsFound(r, ch) {
      var cf := r.heap[ch].cf;
      assert EntryInv(r, joins, cf);
      var left := |joins(ch) - {t}|;
      assert left == r.chans[cf].pendingJoins - if afterJoin then 1 else 0 by {
        if !afterJoin { assert joins(ch) - {t} == joins(ch); }
      }
      CleanupOfFound(r, ch, afterJoin, busy, left);
      var entry := r.chans[cf].(pendingJoins := left);
      CountKeepsInv(r, joins, cf, entry, t);
      if left == 0 && IsClean(r.heap[ch], busy) {
        var counted := r.(chans := r.chans[cf := entry]);
        DeletionKeepsInv(counted, Without(joins, t), cf, MaybeCleanup(r, ch, afterJoin, busy).skeletons);
      }
    } else {
      assert ChannelInv(r, joins, ch);
      assert joins(ch) == {};
      UntouchedKeepsInv(r, joins, t);
    }
  }

  lemma {:induction false} UntouchedKeepsInv(r: Registry, joins: Ch -> set<Tid>, t: Tid)
    requires RegInv(r, joins) && forall ch :: t !in joins(ch)
    ensures RegInv(r, Without(joins, t))
  {
    forall ch ensures Without(joins, t)(ch) == joins(ch) {
      assert t !in joins(ch);
    }
    forall cf | cf in r.chans ensures EntryInv(r, Without(joins, t), cf) { assert EntryInv(r, joins, cf); }
    forall ch | ch in r.heap ensures ChannelInv(r, Without(joins, t), ch) { assert ChannelInv(r, joins, ch); }
  }

  lemma {:induction false} RegistrationKeepsInv(config: Config, r: Registry, joins: Ch -> set<Tid>, name: string, account: string, enabled: bool)
    requires RegInv(r, joins) && EntriesInHeap(r)
    ensures var r' := SetRegistered(config, r, name, account, enabled).0;
            r'.heap.Keys == r.heap.Keys && RegInv(r', joins)
  {
    var r' := SetRegistered(config, r, name, account, enabled).0;
    forall cf | cf in r'.chans ensures EntryInv(r', joins, cf) {
      assert EntryInv(r, joins, cf);
    }
    forall ch | ch in r'.heap ensures ChannelInv(r', joins, ch) {
      assert ChannelInv(r, joins, ch);
    }
  }

  lemma {:induction false} UncountedCleanupKeepsInv(r: Registry, joins: Ch -> set<Tid>, ch: Ch, busy: bool, t: Tid)
    requires RegInv(r, joins) && ch in r.heap && forall other :: t !in joins(other)
    ensures var r' := MaybeCleanup(r, ch, false, busy); r'.heap == r.heap && RegInv(r', joins)
  {
    CleanupKeepsInv(r, joins, ch, false, busy, t);
    forall other ensures joins(other) == Without(joins, t)(other) {
      assert t !in joins(other);
    }
    SameJoins(MaybeCleanup(r, ch, false, busy), Without(joins, t), joins);
  }

  lemma {:induction false} FounderKeepsInv(r: Registry, joins: Ch -> set<Tid>, ch: Ch, founder: string)
    requires RegInv(r, joins) && ch in r.heap
    ensures RegInv(r.(heap := r.heap[ch := r.heap[ch].(founder := founder)]), joins)
  {
    var r' := r.(heap := r.heap[ch := r.heap[ch].(founder := founder)]);
    forall cf | cf in r'.chans ensures EntryInv(r', joins, cf) { assert EntryInv(r, joins, cf); }
    forall c | c in r'.heap ensures ChannelInv(r', joins, c) { assert ChannelInv(r, joins, c); }
  }

  lemma {:induction false} UnregistrationKeepsInv(config: Config, r: Registry, joins: Ch -> set<Tid>, name: string, account: string, busy: bool, t: Tid)
    requires RegInv(r, joins) && EntriesInHeap(r) && forall ch :: t !in joins(ch)
    ensures var r' := SetUnregistered(config, r, name, account, busy).0;
            r'.heap.Keys == r.heap.Keys && RegInv(r', joins)
  {
    var cf := config.fold.casefold(name);
    if cf.Some? && cf.value in r.chans && r.heap[r.chans[cf.value].channel].founder == account {
      var ch := r.chans[cf.value].channel;
      assert EntryInv(r, joins, cf.value);
      FounderKeepsInv(r, joins, ch, "");
      UncountedCleanupKeepsInv(r.(heap := r.heap[ch := r.heap[ch].(founder := "")]), joins, ch, busy, t);
    }
  }

  lemma {:induction false} RenameKeepsInv(config: Config, r: Registry, joins: Ch -> set<Tid>, name: string, newName: string)
    requires RegInv(r, joins) && EntriesInHeap(r)
    ensures var r' := Rename(config, r, name, newName).0;
            r'.heap.Keys == r.heap.Keys && RegInv(r', joins)
  {
    var (r', error) := Rename(config, r, name, newName);
    if error == None {
      var oldCf := config.fold.casefold(name).value;
      assert EntryInv(r, joins, oldCf);
      forall cf | cf in r'.chans ensures EntryInv(r', joins, cf) {
        if cf in r.chans { assert EntryInv(r, joins, cf); }
      }
      forall ch | ch in r'.heap ensures ChannelInv(r', joins, ch) {
        assert ChannelInv(r, joins, ch);
      }
    }
  }

  lemma {:induction false} SameJoins(r: Registry, joins: Ch -> set<Tid>, joins': Ch -> set<Tid>)
    requires RegInv(r, joins) && forall ch :: joins(ch) == joins'(ch)
    ensures RegInv(r, joins')
  {
    forall cf | cf in r.chans ensures EntryInv(r, joins', cf) { assert EntryInv(r, joins, cf); }
    forall ch | ch in r.heap ensures ChannelInv(r, joins', ch) { assert ChannelInv(r, joins, ch); }
  }

  lemma {:induction false} MembersKeepInv(r: Registry, joins: Ch -> set<Tid>, ch: Ch, members: set<Client>)
    requires RegInv(r, joins) && ch in r.heap && (members != {} ==> IsFound(r, ch))
    ensures RegInv(SetMembers(r, ch, members), joins)
  {
    var r' := SetMembers(r, ch, members);
    forall cf | cf in r'.chans ensures EntryInv(r', joins, cf) { assert EntryInv(r, joins, cf); }
    forall c | c in r'.heap ensures ChannelInv(r', joins, c) { assert ChannelInv(r, joins, c); }
  }

  lemma {:induction false} JoinsWithThread(threads: map<Tid, Thread>, t: Tid, pc: Thread, ch: Ch)
    requires t !in threads && pc.Joining?
    ensures Joins(threads[t := pc])(ch) == With(Joins(threads), pc.ch, t)(ch)
  {
  }

  /** The registry has counted a join, whose thread now starts. */
  lemma {:induction false} CountedJoinKeepsInv(reg: Registry, threads: map<Tid, Thread>, checking: Option<Ch>, t: Tid, ch: Ch, client: Client)
    requires t !in threads && ch in reg.heap && forall u :: u in threads ==> threads[u].ch in reg.heap
    requires RegInv(reg, With(Joins(threads), ch, t))
    ensures Inv(State(reg, threads[t := Joining(ch, client)], checking))
  {
    var pc := Joining(ch, client);
    forall other ensures Joins(threads[t := pc])(other) == With(Joins(threads), ch, t)(other) {
      JoinsWithThread(threads, t, pc, other);
    }
    SameJoins(reg, With(Joins(threads), ch, t), Joins(threads[t := pc]));
  }

  lemma {:induction false} StartJoinKeepsInv(config: Config, s: State, a: Action)
    requires Inv(s) && Enabled(config, s, a) && a.StartJoin?
    ensures Inv(Next(config, s, a))
  {
    assert JoinsInFlight(s.threads, a.newCh) == {};
    EnterKeepsInv(config, s.reg, Joins(s.threads), a.name, a.mayCreate, a.newCh, a.t);
    var (reg, result) := Enter(config, s.reg, a.name, a.mayCreate, a.newCh);
    if result.Ok? {
      CountedJoinKeepsInv(reg, s.threads, s.checking, a.t, result.value, a.client);
    }
  }

  lemma {:induction false} MemberStepKeepsInv(config: Config, s: State, a: Action)
    requires Inv(s) && Enabled(config, s, a) && (a.AddMember? || a.RefuseJoin?)
    ensures Inv(Next(config, s, a))
  {
    var n := Next(config, s, a);
    var joins, joins' := Joins(s.threads), Joins(n.threads);
    if a.AddMember? {
      var ch := s.threads[a.t].ch;
      assert a.t in joins(ch) && ChannelInv(s.reg, joins, ch);
      MembersKeepInv(s.reg, joins, ch, s.reg.heap[ch].members + {s.threads[a.t].client});
    }
    SameJoins(n.reg, joins, joins');
  }

  lemma {:induction false} QuitKeepsInv(config: Config, s: State, a: Action)
    requires Inv(s) && Enabled(config, s, a) && a.Quit?
    ensures Inv(Next(config, s, a))
  {
    var n := Next(config, s, a);
    var joins, joins' := Joins(s.threads), Joins(n.threads);
    assert ChannelInv(s.reg, joins, a.ch);
    MembersKeepInv(s.reg, joins, a.ch, s.reg.heap[a.ch].members - {a.client});
    SameJoins(n.reg, joins, joins');
  }

  lemma {:induction false} JoinsWithoutThread(threads: map<Tid, Thread>, t: Tid, ch: Ch)
    ensures Joins(threads - {t})(ch) == Without(Joins(threads), t)(ch)
  {
  }

  lemma {:induction false} FinishKeepsInv(config: Config, s: State, a: Action)
    requires Inv(s) && Enabled(config, s, a) && (a.FinishJoin? || a.FinishCleanup?)
    ensures Inv(Next(config, s, a))
  {
    var n := Next(config, s, a);
    var joins := Joins(s.threads);
    var ch := s.threads[a.t].ch;
    assert a.t in joins(ch) <==> a.FinishJoin?;
    CleanupKeepsInv(s.reg, joins, ch, a.FinishJoin?, IsLocked(s.threads, ch), a.t);
    assert n.reg == MaybeCleanup(s.reg, ch, a.FinishJoin?, IsLocked(s.threads, ch)) && n.threads == s.threads - {a.t};
    forall other ensures Joins(n.threads)(other) == Without(joins, a.t)(other) {
      JoinsWithoutThread(s.threads, a.t, other);
    }
    SameJoins(n.reg, Without(joins, a.t), Joins(n.threads));
  }

  lemma {:induction false} SectionKeepsInv(config: Config, s: State, a: Action)
    requires Inv(s) && Enabled(config, s, a) && (a.Register? || a.Unregister? || a.Renamed?)
    ensures Inv(Next(config, s, a))
  {
    var joins, t := Joins(s.threads), Unused(s.threads.Keys);
    if a.Register? {
      RegistrationKeepsInv(config, s.reg, joins, a.name, a.account, a.enabled);
    } else if a.Unregister? {
      var cf := config.fold.casefold(a.name);
      var busy := cf.Some? && cf.value in s.reg.chans && IsLocked(s.threads, s.reg.chans[cf.value].channel);
      UnregistrationKeepsInv(config, s.reg, joins, a.name, a.account, busy, t);
    } else {
      RenameKeepsInv(config, s.reg, joins, a.name, a.newName);
    }
  }

  predicate IsWriterStep(a: Action) {
    a.BeginCheck? || a.StartWriter? || a.EndWrite? || a.TestWriter? || a.Retry?
  }

  lemma {:induction false} WriterKeepsInv(config: Config, s: State, a: Action)
    requires Inv(s) && Enabled(config, s, a) && IsWriterStep(a)
    ensures Inv(Next(config, s, a))
  {
    SameJoins(s.reg, Joins(s.threads), Joins(Next(config, s, a).threads));
  }

  lemma {:induction false} StepKeepsInv(config: Config, s: State, a: Action)
    requires Inv(s) && Enabled(config, s, a)
    ensures Inv(Next(config, s, a))
  {
    if a.StartJoin? {
      StartJoinKeepsInv(config, s, a);
    } else if a.AddMember? || a.RefuseJoin? {
      MemberStepKeepsInv(config, s, a);
    } else if a.FinishJoin? || a.FinishCleanup? {
      FinishKeepsInv(config, s, a);
    } else if a.Quit? {
      QuitKeepsInv(config, s, a);
    } else if IsWriterStep(a) {
      WriterKeepsInv(config, s, a);
    } else {
      SectionKeepsInv(config, s, a);
    }
  }

  /** Over every interleaving a channel with a member or a join in flight is the one found under its
      current name, and every entry counts the joins in flight on its channel. */
  lemma {:induction false} ChannelsInUseAreFound(config: Config, s: State, actions: seq<Action>, s': State)
    requires Inv(s) && IsRun(config, s, actions, s')
    ensures Inv(s')
    ensures forall ch :: ch in s'.reg.heap && (s'.reg.heap[ch].members != {} || JoinsInFlight(s'.threads, ch) != {}) ==>
              IsFound(s'.reg, ch)
    ensures forall cf :: cf in s'.reg.chans ==>
              s'.reg.chans[cf].pendingJoins == |JoinsInFlight(s'.threads, s'.reg.chans[cf].channel)|
    decreases actions
  {
    if actions == [] {
      forall cf | cf in s'.reg.chans
        ensures s'.reg.chans[cf].pendingJoins == |JoinsInFlight(s'.threads, s'.reg.chans[cf].channel)|
      {
        assert EntryInv(s'.reg, Joins(s'.threads), cf);
      }
      forall ch | ch in s'.reg.heap && (s'.reg.heap[ch].members != {} || JoinsInFlight(s'.threads, ch) != {})
        ensures IsFound(s'.reg, ch)
      {
        assert ChannelInv(s'.reg, Joins(s'.threads), ch);
      }
    } else {
      StepKeepsInv(config, s, actions[0]);
      ChannelsInUseAreFound(config, Next(config, s, actions[0]), actions[1..], s');
    }
  }


  // ---------------------------------------------------------------- no empty channel is left behind

  /** Somebody will still look at the channel: a join, a cleanup or a writer in flight, or IsClean itself. */
  ghost predicate IsWatched(s: State, ch: Ch) {
    s.checking == Some(ch) || exists t :: t in s.threads && s.threads[t].ch == ch
  }

  /** A channel that should be removed. */
  predicate IsIdle(channel: Channel) {
    channel.members == {} && channel.founder == ""
  }

  ghost predicate EntryIsWatched(s: State, cf: string)
    requires cf in s.reg.chans && s.reg.chans[cf].channel in s.reg.heap
  {
    IsIdle(s.reg.heap[s.reg.chans[cf].channel]) ==> IsWatched(s, s.reg.chans[cf].channel)
  }

  ghost predicate NoLeakInv(s: State) {
    EntriesInHeap(s.reg) && forall cf :: cf in s.reg.chans ==> EntryIsWatched(s, cf)
  }

  /** The end of a section with maybeCleanup: an idle channel that is still there has another join in
      flight, or a writer that had the lock. */
  lemma {:induction false} CleanupIsWatched(config: Config, s: State, a: Action, cf: string)
    requires Enabled(config, s, a) && (a.FinishJoin? || a.FinishCleanup?)
    requires Inv(s) && Inv(Next(config, s, a)) && NoLeakInv(s)
    requires cf in Next(config, s, a).reg.chans
    ensures EntryIsWatched(Next(config, s, a), cf)
  {
    var n := Next(config, s, a);
    CleanupKeepsEntry(s.reg, s.threads[a.t].ch, a.FinishJoin?, IsLocked(s.threads, s.threads[a.t].ch), cf);
    assert EntryInv(n.reg, Joins(n.threads), cf);
    if IsIdle(n.reg.heap[s.reg.chans[cf].channel]) {
      if s.reg.chans[cf].channel == s.threads[a.t].ch {
        DoneIsWatched(config, s, a, cf);
      } else {
        NotDoneIsWatched(config, s, a, cf);
      }
    }
  }

  lemma {:induction false} CleanupKeepsEntry(r: Registry, ch: Ch, afterJoin: bool, busy: bool, cf: string)
    requires ch in r.heap && cf in MaybeCleanup(r, ch, afterJoin, busy).chans
    ensures cf in r.chans && MaybeCleanup(r, ch, afterJoin, busy).chans[cf].channel == r.chans[cf].channel
    ensures MaybeCleanup(r, ch, afterJoin, busy).heap == r.heap
  {
  }

  lemma {:induction false} NotDoneIsWatched(config: Config, s: State, a: Action, cf: string)
    requires Enabled(config, s, a) && (a.FinishJoin? || a.FinishCleanup?) && NoLeakInv(s)
    requires cf in s.reg.chans && s.reg.chans[cf].channel != s.threads[a.t].ch && IsIdle(s.reg.heap[s.reg.chans[cf].channel])
    ensures IsWatched(Next(config, s, a), s.reg.chans[cf].channel)
  {
    var n, ch := Next(config, s, a), s.reg.chans[cf].channel;
    assert EntryIsWatched(s, cf) && s.checking != Some(ch);
    var t :| t in s.threads && s.threads[t].ch == ch;
    assert t in n.threads && n.threads[t].ch == ch;
  }

  lemma {:induction false} DoneIsWatched(config: Config, s: State, a: Action, cf: string)
    requires Inv(s) && Enabled(config, s, a) && (a.FinishJoin? || a.FinishCleanup?)
    requires cf in Next(config, s, a).reg.chans && EntryInv(Next(config, s, a).reg, Joins(Next(config, s, a).threads), cf)
    requires cf in s.reg.chans && s.reg.chans[cf].channel == s.threads[a.t].ch && IsIdle(s.reg.heap[s.threads[a.t].ch])
    ensures IsWatched(Next(config, s, a), s.threads[a.t].ch)
  {
    var n, ch := Next(config, s, a), s.threads[a.t].ch;
    assert EntryInv(s.reg, Joins(s.threads), cf);
    if n.reg.chans[cf].pendingJoins != 0 {
      var t :| t in JoinsInFlight(n.threads, ch);
      assert t in n.threads && n.threads[t].ch == ch;
    } else {
      assert IsLocked(s.threads, ch);
      var t :| t in s.threads && s.threads[t] == Holding(ch);
      assert t in n.threads && n.threads[t].ch == ch;
    }
  }

  lemma {:induction false} NamedStaysWatched(config: Config, s: State, a: Action, cf: string)
    requires Enabled(config, s, a) && a.Unregister? && config.fold.casefold(a.name) == Some(cf)
    requires cf in s.reg.chans && cf in Next(config, s, a).reg.chans
    requires EntryInv(s.reg, Joins(s.threads), cf) && EntryInv(Next(config, s, a).reg, Joins(Next(config, s, a).threads), cf)
    requires s.reg.heap[s.reg.chans[cf].channel].founder == a.account && IsIdle(Next(config, s, a).reg.heap[s.reg.chans[cf].channel])
    ensures IsWatched(Next(config, s, a), s.reg.chans[cf].channel)
  {
    var n, ch := Next(config, s, a), s.reg.chans[cf].channel;
    if n.reg.chans[cf].pendingJoins != 0 {
      var t :| t in JoinsInFlight(n.threads, ch);
      assert t in n.threads && n.threads[t].ch == ch;
    } else {
      assert IsLocked(s.threads, ch);
      var t :| t in s.threads && s.threads[t] == Holding(ch);
      assert t in n.threads && n.threads[t].ch == ch;
    }
  }

  lemma {:induction false} UnregisterKeepsEntry(config: Config, r: Registry, name: string, account: string, busy: bool, cf: string)
    requires EntriesInHeap(r) && cf in SetUnregistered(config, r, name, account, busy).0.chans
    ensures cf in r.chans && SetUnregistered(config, r, name, account, busy).0.chans[cf].channel == r.chans[cf].channel
  {
  }

  lemma {:induction false} UnregisteredIsWatched(config: Config, s: State, a: Action, cf: string, busy: bool)
    requires Enabled(config, s, a) && a.Unregister? && Inv(s) && NoLeakInv(s)
    requires cf in Next(config, s, a).reg.chans && EntryInv(Next(config, s, a).reg, Joins(Next(config, s, a).threads), cf)
    requires Next(config, s, a).reg == SetUnregistered(config, s.reg, a.name, a.account, busy).0
    ensures EntryIsWatched(Next(config, s, a), cf)
  {
    UnregisterKeepsEntry(config, s.reg, a.name, a.account, busy, cf);
    assert EntryInv(s.reg, Joins(s.threads), cf);
    var ch := s.reg.chans[cf].channel;
    if IsIdle(Next(config, s, a).reg.heap[ch]) {
      if config.fold.casefold(a.name) == Some(cf) && s.reg.heap[ch].founder == a.account {
        NamedStaysWatched(config, s, a, cf);
      } else {
        OtherStaysWatched(config, s, a, cf);
      }
    }
  }

  lemma {:induction false} OtherStaysWatched(config: Config, s: State, a: Action, cf: string)
    requires Inv(s) && NoLeakInv(s) && Enabled(config, s, a) && a.Unregister?
    requires cf in s.reg.chans && cf in Next(config, s, a).reg.chans
    requires config.fold.casefold(a.name) != Some(cf) || s.reg.heap[s.reg.chans[cf].channel].founder != a.account
    requires IsIdle(Next(config, s, a).reg.heap[s.reg.chans[cf].channel])
    ensures IsWatched(Next(config, s, a), s.reg.chans[cf].channel)
  {
    var ch := s.reg.chans[cf].channel;
    assert EntryInv(s.reg, Joins(s.threads), cf) && EntryIsWatched(s, cf);
    var named := config.fold.casefold(a.name);
    if named.Some? && named.value in s.reg.chans {
      assert EntryInv(s.reg, Joins(s.threads), named.value);
    }
    assert s.reg.heap[ch] == Next(config, s, a).reg.heap[ch];
    assert s.checking != Some(ch);
    var t :| t in s.threads && s.threads[t].ch == ch;
  }

  /** A thread on the channel stays there, but for a writer that finds the lock taken again, or members. */
  lemma {:induction false} ThreadStays(config: Config, s: State, a: Action, t: Tid)
    requires Enabled(config, s, a) && (a.AddMember? || a.RefuseJoin? || a.Quit? || IsWriterStep(a)) && t in s.threads
    ensures var n, ch := Next(config, s, a), s.threads[t].ch;
            || (t in n.threads && n.threads[t].ch == ch)
            || (a.Retry? && a.t == t && (IsLocked(s.threads, ch) || s.checking == Some(ch)))
            || (a.TestWriter? && a.t == t && s.reg.heap[ch].members != {} && n.reg == s.reg)
  {
  }

  lemma {:induction false} LockedStaysWatched(config: Config, s: State, a: Action, ch: Ch)
    requires Enabled(config, s, a) && a.Retry? && IsLocked(s.threads, ch)
    ensures IsWatched(Next(config, s, a), ch)
  {
    var t :| t in s.threads && s.threads[t] == Holding(ch);
    assert t in Next(config, s, a).threads && Next(config, s, a).threads[t].ch == ch;
  }

  /** Steps outside of the manager's sections. */
  lemma {:induction false} FreeStepIsWatched(config: Config, s: State, a: Action, cf: string)
    requires NoLeakInv(s) && Enabled(config, s, a) && (a.AddMember? || a.RefuseJoin? || a.Quit? || IsWriterStep(a))
    requires cf in s.reg.chans
    ensures Next(config, s, a).reg.chans == s.reg.chans && s.reg.chans[cf].channel in Next(config, s, a).reg.heap
    ensures EntryIsWatched(Next(config, s, a), cf)
  {
    var n := Next(config, s, a);
    var ch := s.reg.chans[cf].channel;
    if IsIdle(n.reg.heap[ch]) && n.checking != Some(ch) {
      if a.Quit? && a.ch == ch {
        assert n.threads[a.t].ch == ch;
      } else {
        assert EntryIsWatched(s, cf) && n.reg.heap[ch] == s.reg.heap[ch];
        var t :| t in s.threads && s.threads[t].ch == ch;
        ThreadStays(config, s, a, t);
        if a.Retry? && IsLocked(s.threads, ch) {
          LockedStaysWatched(config, s, a, ch);
        }
      }
    }
  }

  lemma {:induction false} EnteredIsWatched(config: Config, s: State, a: Action, cf: string)
    requires Inv(s) && NoLeakInv(s) && Enabled(config, s, a) && (a.StartJoin? || a.Register?)
    requires cf in Next(config, s, a).reg.chans
    ensures Next(config, s, a).reg.chans[cf].channel in Next(config, s, a).reg.heap && EntryIsWatched(Next(config, s, a), cf)
  {
    var n := Next(config, s, a);
    if cf in s.reg.chans {
      var ch := s.reg.chans[cf].channel;
      assert EntryIsWatched(s, cf);
      if IsIdle(n.reg.heap[ch]) {
        var t :| t in s.threads && s.threads[t].ch == ch;
        assert t in n.threads && n.threads[t].ch == ch;
      }
    } else {
      assert n.threads[a.t].ch == n.reg.chans[cf].channel;
    }
  }

  lemma {:induction false} RenameIsWatched(config: Config, s: State, a: Action, cf: string)
    requires NoLeakInv(s) && Enabled(config, s, a) && a.Renamed?
    requires cf in Next(config, s, a).reg.chans
    ensures Next(config, s, a).reg.chans[cf].channel in Next(config, s, a).reg.heap && EntryIsWatched(Next(config, s, a), cf)
  {
    var n := Next(config, s, a);
    var from := if Rename(config, s.reg, a.name, a.newName).1 == None && cf == config.fold.casefold(a.newName).value
                then config.fold.casefold(a.name).value else cf;
    assert EntryIsWatched(s, from);
  }

  lemma {:induction false} StepIsWatched(config: Config, s: State, a: Action, cf: string)
    requires Inv(s) && NoLeakInv(s) && Enabled(config, s, a) && Inv(Next(config, s, a)) && cf in Next(config, s, a).reg.chans
    ensures Next(config, s, a).reg.chans[cf].channel in Next(config, s, a).reg.heap && EntryIsWatched(Next(config, s, a), cf)
  {
    assert EntryInv(Next(config, s, a).reg, Joins(Next(config, s, a).threads), cf);
    if a.FinishJoin? || a.FinishCleanup? {
      CleanupIsWatched(config, s, a, cf);
    } else if a.Unregister? {
      var named := config.fold.casefold(a.name);
      var busy := named.Some? && named.value in s.reg.chans && IsLocked(s.threads, s.reg.chans[named.value].channel);
      UnregisteredIsWatched(config, s, a, cf, busy);
    } else if a.Renamed? {
      RenameIsWatched(config, s, a, cf);
    } else if a.StartJoin? || a.Register? {
      EnteredIsWatched(config, s, a, cf);
    } else {
      FreeStepIsWatched(config, s, a, cf);
    }
  }

  lemma {:induction false} StepKeepsNoLeak(config: Config, s: State, a: Action)
    requires Inv(s) && NoLeakInv(s) && Enabled(config, s, a)
    ensures Inv(Next(config, s, a)) && NoLeakInv(Next(config, s, a))
  {
    StepKeepsInv(config, s, a);
    forall cf | cf in Next(config, s, a).reg.chans
      ensures Next(config, s, a).reg.chans[cf].channel in Next(config, s, a).reg.heap && EntryIsWatched(Next(config, s, a), cf)
    {
      StepIsWatched(config, s, a, cf);
    }
  }

  lemma {:induction false} RunKeepsNoLeak(config: Config, s: State, actions: seq<Action>, s': State)
    requires Inv(s) && NoLeakInv(s) && IsRun(config, s, actions, s')
    ensures Inv(s') && NoLeakInv(s')
    decreases actions
  {
    if actions != [] {
      StepKeepsNoLeak(config, s, actions[0]);
      RunKeepsNoLeak(config, Next(config, s, actions[0]), actions[1..], s');
    }
  }

  /** When nothing is in flight, every channel in the registry has a member or is registered, also if it was
      unregistered while a writer had its lock. */
  lemma {:induction false} NoEmptyChannelIsLeft(config: Config, s: State, actions: seq<Action>, s': State)
    requires Init(s) && IsRun(config, s, actions, s') && s'.threads == map[] && s'.checking == None
    ensures EntriesInHeap(s'.reg)
    ensures forall cf :: cf in s'.reg.chans ==>
              s'.reg.heap[s'.reg.chans[cf].channel].members != {} || s'.reg.heap[s'.reg.chans[cf].channel].founder != ""
  {
    RunKeepsNoLeak(config, s, actions, s');
    forall cf | cf in s'.reg.chans ensures !IsIdle(s'.reg.heap[s'.reg.chans[cf].channel]) {
      assert EntryIsWatched(s', cf);
    }
  }
}
