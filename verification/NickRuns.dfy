/** Runs of all the operations on reserved nicknames (irc/accounts.go): the cache is right at every point of
    a run exactly if every step of it is harmless, which is a condition on the step that can be looked up
    before it is taken; and steps that are not harmless happen. */
module NickRuns {
  import opened Common
  import opened NickIndex
  import opened NickUnregister

  /** DoUnregister is also what Register does when the verification message cannot be sent. DoRename is the
      transaction of a Rename. */
  datatype Action =
    | DoRegister(name: string, request: Request)
    | BeginVerify(name: string)
    | EndVerify(mayVerify: bool)
    | DoReserve(account: string, nick: string)
    | DoDrop(account: string, nick: string)
    | DoOperatorDrop(account: string, nick: string)
    | DoExpire(cf: string)
    | DoUnregister(cf: string, erase: bool)
    | DoRename(cf: string, newName: string)

  /** `known` has the accounts that ever existed, which a Rename may have found before; `logins` those that a
      client was ever logged into: one that is unregistered still counts as logged in until it is killed.
      `verifying` is the Verify that is between its two parts, and holds the mutex. */
  datatype World = World(now: State, known: set<string>, logins: set<string>, verifying: Option<Verification>)

  predicate NeedsMutex(a: Action) {
    !a.EndVerify? && !a.DoExpire? && !a.DoRename?
  }

  predicate Enabled(config: Config, w: World, a: Action) {
    && (NeedsMutex(a) ==> w.verifying.None?)
    && match a
       case DoRegister(name, _) => config.fold.casefold(name) != Some("")
       case EndVerify(_) => w.verifying.Some?
       case DoReserve(account, _) => account == "" || account in w.logins
       case DoDrop(account, _) => account == "" || account in w.logins
       case DoOperatorDrop(account, _) => account == "" || account in w.logins
       case DoExpire(cf) => cf in w.now.accounts && !w.now.accounts[cf].verified
       case DoRename(cf, newName) => cf in w.known && config.fold.casefold(newName) == Some(cf)
       case _ => true
  }

  function Next(config: Config, w: World, a: Action): World
    requires Enabled(config, w, a)
  {
    var s := w.now;
    match a
    case DoRegister(name, request) =>
      var (s', error) := Register(config, s, name, request);
      if error.Some? then w else w.(now := s', known := w.known + {config.fold.casefold(name).value})
    case BeginVerify(name) =>
      var read := ReadName(config, s, name);
      if read.Err? then w else w.(verifying := Some(read.value))
    case EndVerify(mayVerify) =>
      var v := w.verifying.value;
      var (s', error) := Commit(s, v, mayVerify);
      w.(now := s', verifying := None, logins := if error.Some? then w.logins else w.logins + {v.cf})
    case DoReserve(account, nick) => w.(now := SetNickReserved(config, s, account, nick, false, true).0)
    case DoDrop(account, nick) => w.(now := SetNickReserved(config, s, account, nick, false, false).0)
    case DoOperatorDrop(account, nick) => w.(now := SetNickReserved(config, s, account, nick, true, false).0)
    case DoExpire(cf) => w.(now := Expire(s, cf))
    case DoUnregister(cf, erase) => w.(now := Unregister(config, s, cf, erase))
    case DoRename(cf, newName) => w.(now := StoreName(s, cf, newName))
  }

  ghost predicate IsRun(config: Config, w: World, actions: seq<Action>, w': World)
    decreases actions
  {
    if actions == [] then w' == w
    else Enabled(config, w, actions[0]) && IsRun(config, Next(config, w, actions[0]), actions[1..], w')
  }

  /** What has been read to verify an account was not reserved, and nothing is while the mutex is held. */
  ghost predicate Sound(config: Config, w: World) {
    Inv(config, w.now) && (w.verifying.Some? ==> w.verifying.value.skeleton !in w.now.skeletonToAccount)
  }

  // ---------------------------------------------------------------- harmless steps

  predicate IsHarmlessReserve(config: Config, s: State, account: string, nick: string) {
    account in s.accounts || SetNickReserved(config, s, account, nick, false, true).1.Some?
  }

  predicate IsHarmlessDrop(config: Config, s: State, account: string, nick: string) {
    var cfnick := config.fold.casefold(nick);
    || cfnick.None? || cfnick == Some("") || config.fold.skeleton(nick).None? || account == ""
    || cfnick.value !in s.nickToAccount || s.nickToAccount[cfnick.value] == account || cfnick.value == account
  }

  predicate IsHarmlessUnregister(config: Config, s: State, cf: string, erase: bool) {
    if cf in s.accounts then
      AllFolded(config.fold, NicksOf(s, cf)) && (s.accounts[cf].verified || OwnsSkeleton(config, s, cf))
    else if IsErased(config, s, cf, erase) then HasFormerName(config, s, cf)
    else cf !in s.nickToAccount && OrEmpty(config.fold.skeleton(NameFor(s, cf))) !in s.skeletonToAccount
  }

  predicate IsHarmlessRename(config: Config, s: State, cf: string, newName: string) {
    IsVerified(s, cf) ==> Sk(config, s, Primary(cf)) == Some(OrEmpty(config.fold.skeleton(newName)))
  }

  predicate IsHarmless(config: Config, w: World, a: Action)
    requires Enabled(config, w, a)
  {
    match a
    case EndVerify(mayVerify) => Commit(w.now, w.verifying.value, mayVerify).1.Some? || HasName(config, w.now, w.verifying.value)
    case DoReserve(account, nick) => IsHarmlessReserve(config, w.now, account, nick)
    case DoOperatorDrop(account, nick) => IsHarmlessDrop(config, w.now, account, nick)
    case DoExpire(cf) => NicksOf(w.now, cf) == []
    case DoUnregister(cf, erase) => IsHarmlessUnregister(config, w.now, cf, erase)
    case DoRename(cf, newName) => IsHarmlessRename(config, w.now, cf, newName)
    case _ => true
  }

  lemma {:induction false} UnregisterLeavesCacheRight(config: Config, s: State, cf: string, erase: bool)
    requires Inv(config, s) && FoldsOnce(config.fold)
    ensures var s' := Unregister(config, s, cf, erase);
            && (Synced(config, s') <==> IsHarmlessUnregister(config, s, cf, erase))
            && StoreInv(config, s')
  {
    if cf in s.accounts {
      UnregisterIsRightExactly(config, s, cf, erase);
    } else {
      AbsentUnregisterIsRightExactly(config, s, cf, erase);
    }
  }

  lemma {:induction false} OperatorDropIsRightExactly(config: Config, s: State, account: string, nick: string)
    requires Inv(config, s)
    ensures var s' := SetNickReserved(config, s, account, nick, true, false).0;
            && (Synced(config, s') <==> IsHarmlessDrop(config, s, account, nick))
            && (Synced(config, s') ==> Inv(config, s'))
  {
    var cfnick, skeleton := config.fold.casefold(nick), config.fold.skeleton(nick);
    if cfnick.Some? && cfnick != Some("") && skeleton.Some? {
      OperatorDropIsRightExactlyForOwnNicks(config, s, account, nick);
      NickIsFree(config, s, cfnick.value);
      if IsHarmlessDrop(config, s, account, nick) && account != "" && cfnick.value in s.nickToAccount && cfnick.value != account {
        DropKeepsInv(config, s, account, cfnick.value, skeleton.value);
      }
    }
  }

  lemma {:induction false} NickStepIsRightExactly(config: Config, w: World, a: Action)
    requires Sound(config, w) && Enabled(config, w, a) && (a.DoReserve? || a.DoDrop? || a.DoOperatorDrop?)
    ensures Synced(config, Next(config, w, a).now) <==> IsHarmless(config, w, a)
    ensures IsHarmless(config, w, a) ==> Sound(config, Next(config, w, a))
  {
    if a.DoReserve? {
      ReserveIsRightExactly(config, w.now, a.account, a.nick);
    } else if a.DoDrop? {
      SelfDropKeepsInv(config, w.now, a.account, a.nick);
    } else {
      OperatorDropIsRightExactly(config, w.now, a.account, a.nick);
    }
  }

  /** Whatever the operation, it leaves the cache right if and only if it is harmless, and then the next one
      starts from a sound state again. */
  lemma {:induction false} StepIsRightExactlyIfHarmless(config: Config, w: World, a: Action)
    requires Sound(config, w) && Enabled(config, w, a) && (a.DoUnregister? ==> FoldsOnce(config.fold))
    ensures Synced(config, Next(config, w, a).now) <==> IsHarmless(config, w, a)
    ensures IsHarmless(config, w, a) ==> Sound(config, Next(config, w, a))
  {
    if a.DoRegister? {
      RegisterKeepsInv(config, w.now, a.name, a.request);
    } else if a.BeginVerify? {
      ReadNameFinds(config, w.now, a.name);
    } else if a.EndVerify? {
      CommitIsRightExactly(config, w.now, w.verifying.value, a.mayVerify);
    } else if a.DoExpire? {
      ExpireIsRightExactly(config, w.now, a.cf);
    } else if a.DoUnregister? {
      UnregisterLeavesCacheRight(config, w.now, a.cf, a.erase);
    } else if a.DoRename? {
      RenameIsRightExactlyForTheSameSkeleton(config, w.now, a.cf, a.newName);
    } else {
      NickStepIsRightExactly(config, w, a);
    }
  }

  ghost predicate AllHarmless(config: Config, w: World, actions: seq<Action>)
    decreases actions
  {
    actions != [] ==>
      && Enabled(config, w, actions[0]) && IsHarmless(config, w, actions[0])
      && AllHarmless(config, Next(config, w, actions[0]), actions[1..])
  }

  /** The cache is what a rebuild would give, at every point of the run. */
  ghost predicate RightThroughout(config: Config, w: World, actions: seq<Action>)
    decreases actions
  {
    && Synced(config, w.now)
    && (actions != [] ==> Enabled(config, w, actions[0]) && RightThroughout(config, Next(config, w, actions[0]), actions[1..]))
  }

  /** Through any run the cache stays right at every point if and only if every step is harmless. */
  lemma {:induction false} CacheIsRightExactlyIfHarmless(config: Config, w: World, actions: seq<Action>, w': World)
    requires Sound(config, w) && IsRun(config, w, actions, w') && FoldsOnce(config.fold)
    ensures RightThroughout(config, w, actions) <==> AllHarmless(config, w, actions)
    ensures AllHarmless(config, w, actions) ==> Sound(config, w')
    decreases actions
  {
    if actions != [] {
      StepIsRightExactlyIfHarmless(config, w, actions[0]);
      if IsHarmless(config, w, actions[0]) {
        CacheIsRightExactlyIfHarmless(config, Next(config, w, actions[0]), actions[1..], w');
      }
    }
  }

  // ---------------------------------------------------------------- verified accounts

  /** An account becomes verified only by a Verify of it with the right code. */
  lemma {:induction false} StepVerifies(config: Config, w: World, a: Action, cf: string)
    requires Enabled(config, w, a) && !IsVerified(w.now, cf) && IsVerified(Next(config, w, a).now, cf)
    ensures a == EndVerify(true) && w.verifying.Some? && w.verifying.value.cf == cf && cf in w.now.accounts
  {
    if a.DoRegister? {
      RegisterOutcome(config, w.now, a.name, a.request);
    } else if a.EndVerify? {
      CommitOutcome(w.now, w.verifying.value, a.mayVerify);
    } else if a.DoReserve? || a.DoDrop? || a.DoOperatorDrop? {
      SetNickReservedOutcome(config, w.now, a.account, a.nick, a.DoOperatorDrop?, a.DoReserve?);
    } else if a.DoUnregister? {
      UnregisterOutcome(config, w.now, a.cf, a.erase);
    }
  }

  ghost predicate VerifiedThroughout(config: Config, w: World, actions: seq<Action>, cf: string)
    decreases actions
  {
    && IsVerified(w.now, cf)
    && (actions != [] ==>
          Enabled(config, w, actions[0]) && VerifiedThroughout(config, Next(config, w, actions[0]), actions[1..], cf))
  }

  /** For every account that is verified at the end of a run, and was not all along, the run has a Verify of it
      with the right code, since when it has been there and verified: whatever registrations, deletions and
      other verifications there were. */
  lemma {:induction false} VerifiedWithCode(config: Config, w: World, actions: seq<Action>, w': World, cf: string)
    returns (before: seq<Action>, m: World, rest: seq<Action>)
    requires IsRun(config, w, actions, w') && IsVerified(w'.now, cf) && !VerifiedThroughout(config, w, actions, cf)
    ensures actions == before + [EndVerify(true)] + rest && IsRun(config, w, before, m)
    ensures Enabled(config, m, EndVerify(true)) && m.verifying.value.cf == cf && !IsVerified(m.now, cf)
    ensures VerifiedThroughout(config, Next(config, m, EndVerify(true)), rest, cf)
    decreases actions
  {
    var n := Next(config, w, actions[0]);
    if VerifiedThroughout(config, n, actions[1..], cf) {
      StepVerifies(config, w, actions[0], cf);
      before, m, rest := [], w, actions[1..];
      assert actions == [actions[0]] + actions[1..];
    } else {
      before, m, rest := VerifiedWithCode(config, n, actions[1..], w', cf);
      assert actions == [actions[0]] + actions[1..];
      before := [actions[0]] + before;
      assert before[1..] + [EndVerify(true)] + rest == actions[1..];
    }
  }

  // ---------------------------------------------------------------- without Unregister and Rename

  /** Clients are logged into accounts that are there and verified, an account that is not verified has no
      additional nicks, and names are as they were registered. */
  predicate Tidy(config: Config, w: World) {
    && (forall cf :: cf in w.logins ==> IsVerified(w.now, cf))
    && (forall cf :: cf in w.now.accounts && !w.now.accounts[cf].verified ==> NicksOf(w.now, cf) == [])
    && (w.verifying.Some? && w.verifying.value.cf in w.now.accounts ==> HasName(config, w.now, w.verifying.value))
  }

  lemma {:induction false} SelfDropIsOwn(config: Config, s: State, account: string, nick: string)
    requires Inv(config, s)
    ensures var s' := SetNickReserved(config, s, account, nick, false, false).0;
            s'.accounts == s.accounts && s'.names == s.names && forall cf :: cf != account ==> NicksOf(s', cf) == NicksOf(s, cf)
    ensures var s' := SetNickReserved(config, s, account, nick, false, false).0;
            NicksOf(s, account) == [] ==> NicksOf(s', account) == []
  {
    SetNickReservedOutcome(config, s, account, nick, false, false);
  }

  lemma {:induction false} NickStepIsTidy(config: Config, w: World, a: Action)
    requires Sound(config, w) && Tidy(config, w) && Enabled(config, w, a) && (a.DoReserve? || a.DoDrop?)
    ensures IsHarmless(config, w, a) && Tidy(config, Next(config, w, a))
  {
    if a.DoDrop? {
      SelfDropIsOwn(config, w.now, a.account, a.nick);
    }
  }

  lemma {:induction false} TidyIsHarmless(config: Config, w: World, a: Action)
    requires Sound(config, w) && Tidy(config, w) && Enabled(config, w, a)
    requires !a.DoOperatorDrop? && !a.DoUnregister? && !a.DoRename?
    ensures IsHarmless(config, w, a) && Tidy(config, Next(config, w, a))
  {
    if a.DoReserve? || a.DoDrop? {
      NickStepIsTidy(config, w, a);
    } else if a.BeginVerify? {
      ReadNameFinds(config, w.now, a.name);
    }
  }

  /** In particular through any run of Register, Verify, reserving, self-drops and expiry, after which a
      rebuild in any order gives the cache. */
  lemma {:induction false} CacheIsAlwaysRebuilt(config: Config, w: World, actions: seq<Action>, w': World)
    requires Sound(config, w) && Tidy(config, w) && IsRun(config, w, actions, w')
    requires forall a :: a in actions ==> !a.DoOperatorDrop? && !a.DoUnregister? && !a.DoRename?
    ensures Sound(config, w')
    ensures forall nicks, skeletons :: IsIndexOf(nicks, Cfs(config, w'.now)) && IsIndexOf(skeletons, Sks(config, w'.now)) ==>
              nicks == w'.now.nickToAccount && skeletons == w'.now.skeletonToAccount
    decreases actions
  {
    if actions == [] {
      forall nicks, skeletons | IsIndexOf(nicks, Cfs(config, w'.now)) && IsIndexOf(skeletons, Sks(config, w'.now))
        ensures nicks == w'.now.nickToAccount && skeletons == w'.now.skeletonToAccount
      {
        IndexIsUnique(nicks, w'.now.nickToAccount, Cfs(config, w'.now));
        IndexIsUnique(skeletons, w'.now.skeletonToAccount, Sks(config, w'.now));
      }
    } else {
      assert actions[0] in actions;
      TidyIsHarmless(config, w, actions[0]);
      StepIsRightExactlyIfHarmless(config, w, actions[0]);
      CacheIsAlwaysRebuilt(config, Next(config, w, actions[0]), actions[1..], w');
    }
  }

  // ---------------------------------------------------------------- steps that are not harmless happen

  const EMPTY := World(State(map[], map[], map[], map[], map[], map[]), {}, {}, None)

  const FINE := Request(false, true, false, false, true, false, true)

  ghost predicate Reaches(config: Config, w: World) {
    exists actions :: IsRun(config, EMPTY, actions, w)
  }

  lemma {:induction false} RunExtends(config: Config, w: World, actions: seq<Action>, n: World, a: Action)
    requires IsRun(config, w, actions, n) && Enabled(config, n, a)
    ensures IsRun(config, w, actions + [a], Next(config, n, a))
    decreases actions
  {
    if actions == [] {
      assert [] + [a] == [a] && [a][1..] == [];
      assert IsRun(config, Next(config, n, a), [], Next(config, n, a));
    } else {
      assert (actions + [a])[1..] == actions[1..] + [a];
      RunExtends(config, Next(config, w, actions[0]), actions[1..], n, a);
    }
  }

  lemma {:induction false} Do(config: Config, w: World, a: Action) returns (w': World)
    requires Reaches(config, w) && Enabled(config, w, a)
    ensures w' == Next(config, w, a) && Reaches(config, w')
  {
    var actions :| IsRun(config, EMPTY, actions, w);
    RunExtends(config, EMPTY, actions, w, a);
    w' := Next(config, w, a);
  }

  /** From a sound state that can be reached the step leads to one in which the cache is not what a rebuild
      would give. */
  ghost predicate Breaks(config: Config, w: World, a: Action) {
    Reaches(config, w) && Sound(config, w) && Enabled(config, w, a) && !Synced(config, Next(config, w, a).now)
  }

  lemma {:induction false} EmptyIsSound(config: Config)
    ensures Sound(config, EMPTY) && Tidy(config, EMPTY) && Reaches(config, EMPTY)
  {
    assert IsRun(config, EMPTY, [], EMPTY);
  }

  lemma {:induction false} SignUp(config: Config, w: World, name: string, cf: string, sk: string) returns (w': World)
    requires Reaches(config, w) && Sound(config, w) && w.verifying.None? && !IsPlaceholder(name) && cf != ""
    requires config.fold.casefold(name) == Some(cf) && config.fold.skeleton(name) == Some(sk)
    requires cf !in w.now.accounts && cf !in w.now.unregistered && cf !in w.now.nickToAccount && sk !in w.now.skeletonToAccount
    ensures Reaches(config, w') && Sound(config, w')
    ensures w' == w.(now := w.now.(accounts := w.now.accounts[cf := Account(false, true)], names := w.now.names[cf := name]),
                     known := w.known + {cf})
  {
    RegisterKeepsInv(config, w.now, name, FINE);
    w' := Do(config, w, DoRegister(name, FINE));
  }

  lemma {:induction false} Read(config: Config, w: World, name: string, cf: string, sk: string) returns (w': World)
    requires Reaches(config, w) && Sound(config, w) && w.verifying.None? && !IsPlaceholder(name)
    requires config.fold.casefold(name) == Some(cf) && config.fold.skeleton(name) == Some(sk)
    requires cf in w.now.names && w.now.names[cf] == name && sk !in w.now.skeletonToAccount
    ensures Reaches(config, w') && Sound(config, w') && w' == w.(verifying := Some(Verification(cf, sk)))
  {
    w' := Do(config, w, BeginVerify(name));
  }

  lemma {:induction false} Confirm(config: Config, w: World, name: string, cf: string, sk: string) returns (w': World)
    requires Reaches(config, w) && Sound(config, w) && w.verifying.None? && !IsPlaceholder(name)
    requires config.fold.casefold(name) == Some(cf) && config.fold.skeleton(name) == Some(sk)
    requires cf in w.now.accounts && !w.now.accounts[cf].verified
    requires cf in w.now.names && w.now.names[cf] == name && sk !in w.now.skeletonToAccount
    ensures Reaches(config, w') && Sound(config, w')
    ensures w' == w.(now := w.now.(accounts := w.now.accounts[cf := Account(true, false)],
                                   nickToAccount := w.now.nickToAccount[cf := cf],
                                   skeletonToAccount := w.now.skeletonToAccount[sk := cf]),
                     logins := w.logins + {cf})
  {
    var reading := Read(config, w, name, cf, sk);
    CommitIsRightExactly(config, w.now, Verification(cf, sk), true);
    w' := Do(config, reading, EndVerify(true));
  }

  lemma {:induction false} TakeNick(config: Config, w: World, account: string, nick: string, cf: string, sk: string) returns (w': World)
    requires Reaches(config, w) && Sound(config, w) && w.verifying.None?
    requires account in w.logins && account in w.now.accounts && account != "" && cf != ""
    requires config.fold.casefold(nick) == Some(cf) && config.fold.skeleton(nick) == Some(sk)
    requires cf !in w.now.accounts && cf !in w.now.nickToAccount && sk !in w.now.skeletonToAccount
    requires NicksOf(w.now, account) == [] && config.additionalNickLimit > 0
    ensures Reaches(config, w') && Sound(config, w')
    ensures w' == w.(now := w.now.(nicks := w.now.nicks[account := [nick]],
                                   nickToAccount := w.now.nickToAccount[cf := account],
                                   skeletonToAccount := w.now.skeletonToAccount[sk := account]))
  {
    ReserveIsRightExactly(config, w.now, account, nick);
    assert [] + [nick] == [nick];
    w' := Do(config, w, DoReserve(account, nick));
  }

  /** Every name folds to itself and is its own skeleton. */
  function Plain(): Folding {
    Folding(name => Some(name), name => Some(name))
  }

  predicate AreNames(names: seq<string>) {
    (forall i :: 0 <= i < |names| ==> !IsPlaceholder(names[i])) && forall i, j :: 0 <= i < j < |names| ==> names[i] != names[j]
  }

  lemma {:induction false} ThereAreNames()
    ensures AreNames(["o", "u", "n"])
  {
    var names := ["o", "u", "n"];
    assert names[0][0] == 'o' && names[1][0] == 'u' && names[2][0] == 'n' && "*"[0] == '*';
  }

  /** A verified account and nothing else. */
  function User(user: string): World {
    World(State(map[user := Account(true, false)], map[user := user], map[], map[], map[user := user], map[user := user]),
          {user}, {user}, None)
  }

  lemma {:induction false} OneUser(config: Config, user: string)
    requires config.fold.casefold(user) == config.fold.skeleton(user) == Some(user) && !IsPlaceholder(user)
    ensures Reaches(config, User(user)) && Sound(config, User(user))
  {
    EmptyIsSound(config);
    var w := SignUp(config, EMPTY, user, user, user);
    assert w.now == State(map[user := Account(false, true)], map[user := user], map[], map[], map[], map[]);
    w := Confirm(config, w, user, user, user);
    assert w == User(user);
  }

  /** One that has an additional nick. */
  function UserWithNick(user: string, nick: string, cf: string): World {
    User(user).(now := State(map[user := Account(true, false)], map[user := user], map[user := [nick]], map[],
                             map[user := user, cf := user], map[user := user, nick := user]))
  }

  lemma {:induction false} OneNick(config: Config, user: string, nick: string, cf: string)
    requires config.fold.casefold(user) == config.fold.skeleton(user) == Some(user)
    requires config.fold.casefold(nick) == Some(cf) && config.fold.skeleton(nick) == Some(nick)
    requires AreNames([user, nick]) && cf != user && cf != "" && config.additionalNickLimit > 0
    ensures Reaches(config, UserWithNick(user, nick, cf)) && Sound(config, UserWithNick(user, nick, cf))
  {
    assert [user, nick][0] == user && [user, nick][1] == nick;
    OneUser(config, user);
    var w := TakeNick(config, User(user), user, nick, cf, nick);
    assert map[user := user][cf := user] == map[user := user, cf := user];
    assert map[user := user][nick := user] == map[user := user, nick := user];
    assert w == UserWithNick(user, nick, cf);
  }

  lemma {:induction false} OneMoreUser(config: Config, w: World, user: string) returns (w': World)
    requires Reaches(config, w) && Sound(config, w) && w.verifying.None? && !IsPlaceholder(user)
    requires config.fold.casefold(user) == config.fold.skeleton(user) == Some(user)
    requires user !in w.now.accounts && user !in w.now.unregistered && user !in w.now.nickToAccount && user !in w.now.skeletonToAccount
    ensures Reaches(config, w') && Sound(config, w') && w'.verifying.None? && user in w'.logins
    ensures w'.now.nickToAccount == w.now.nickToAccount[user := user]
  {
    w' := SignUp(config, w, user, user, user);
    w' := Confirm(config, w', user, user, user);
  }

  /** An operator drops the nick of somebody else. */
  lemma {:induction false} OperatorDropBreaks(config: Config, operator: string, user: string, nick: string) returns (w: World)
    requires config.fold == Plain() && config.additionalNickLimit > 0 && AreNames([operator, user, nick])
    ensures Breaks(config, w, DoOperatorDrop(operator, nick))
  {
    assert [operator, user, nick][0] == operator && [operator, user, nick][1] == user && [operator, user, nick][2] == nick;
    OneNick(config, user, nick, nick);
    w := OneMoreUser(config, UserWithNick(user, nick, nick), operator);
    OperatorDropIsRightExactlyForOwnNicks(config, w.now, operator, nick);
  }

  /** Of two confusable names the second is verified first; then the registration of the first one fails. */
  lemma {:induction false} UndoneRegistrationBreaks(config: Config, first: string, second: string) returns (w: World)
    requires config.fold == Folding(name => Some(name), name => Some("skeleton")) && AreNames([first, second])
    ensures Breaks(config, w, DoUnregister(first, true))
  {
    assert [first, second][0] == first && [first, second][1] == second;
    EmptyIsSound(config);
    w := SignUp(config, EMPTY, first, first, "skeleton");
    assert w.now == State(map[first := Account(false, true)], map[first := first], map[], map[], map[], map[]);
    w := SignUp(config, w, second, second, "skeleton");
    w := Confirm(config, w, second, second, "skeleton");
    UnregisterIsRightExactly(config, w.now, first, true);
  }

  /** The additional nick is not written as it folds. */
  function FoldingTo(nick: string, folded: string): Folding {
    Folding(name => Some(if name == nick then folded else name), name => Some(name))
  }

  lemma {:induction false} FoldingToIsStable(nick: string, folded: string)
    requires nick != folded
    ensures FoldsOnce(FoldingTo(nick, folded)) && !AllFolded(FoldingTo(nick, folded), [nick])
  {
    assert nick in [nick] && !IsFolded(FoldingTo(nick, folded), nick);
  }

  lemma {:induction false} UnregisterBreaks(config: Config, w: World, cf: string, erase: bool)
    requires Reaches(config, w) && Sound(config, w) && w.verifying.None? && FoldsOnce(config.fold)
    requires cf in w.now.accounts && !AllFolded(config.fold, NicksOf(w.now, cf))
    ensures Breaks(config, w, DoUnregister(cf, erase))
  {
    UnregisterIsRightExactly(config, w.now, cf, erase);
  }

  lemma {:induction false} UnfoldedNickBreaks(config: Config, user: string, nick: string, folded: string, erase: bool)
    requires config.fold == FoldingTo(nick, folded) && config.additionalNickLimit > 0 && AreNames([user, nick, folded])
    ensures Breaks(config, UserWithNick(user, nick, folded), DoUnregister(user, erase))
  {
    assert [user, nick, folded][0] == user && [user, nick, folded][1] == nick && [user, nick, folded][2] == folded;
    OneNick(config, user, nick, folded);
    FoldingToIsStable(nick, folded);
    assert NicksOf(UserWithNick(user, nick, folded).now, user) == [nick];
    UnregisterBreaks(config, UserWithNick(user, nick, folded), user, erase);
  }

  /** A name that was never registered is erased, while it is the nick of somebody. */
  lemma {:induction false} ErasedNickBreaks(config: Config, user: string, nick: string)
    requires config.fold == Plain() && config.additionalNickLimit > 0 && AreNames([user, nick])
    ensures Breaks(config, UserWithNick(user, nick, nick), DoUnregister(nick, true))
  {
    assert [user, nick][0] == user && [user, nick][1] == nick;
    OneNick(config, user, nick, nick);
    AbsentUnregisterIsRightExactly(config, UserWithNick(user, nick, nick).now, nick, true);
  }

  /** An account is renamed to a name that folds the same but has another skeleton. */
  lemma {:induction false} RenameBreaks(config: Config, user: string, newName: string)
    requires config.fold == FoldingTo(newName, user) && AreNames([user, newName])
    ensures Breaks(config, User(user), DoRename(user, newName))
  {
    assert [user, newName][0] == user && [user, newName][1] == newName;
    OneUser(config, user);
    RenameIsRightExactlyForTheSameSkeleton(config, User(user).now, user, newName);
  }

  /** The same happens before the account is verified, but after its name has been read for that. */
  lemma {:induction false} RenameDuringVerifyBreaks(config: Config, user: string, newName: string) returns (w: World)
    requires config.fold == FoldingTo(newName, user) && AreNames([user, newName])
    ensures Breaks(config, w, EndVerify(true))
  {
    assert [user, newName][0] == user && [user, newName][1] == newName;
    EmptyIsSound(config);
    w := SignUp(config, EMPTY, user, user, user);
    assert w.now == State(map[user := Account(false, true)], map[user := user], map[], map[], map[], map[]);
    w := Read(config, w, user, user, user);
    RenameIsRightExactlyForTheSameSkeleton(config, w.now, user, newName);
    w := Do(config, w, DoRename(user, newName));
    CommitIsRightExactly(config, w.now, Verification(user, user), true);
  }

  /** An account is erased; a client is still logged into it. */
  lemma {:induction false} Erased(config: Config, user: string) returns (w: World)
    requires config.fold.casefold(user) == config.fold.skeleton(user) == Some(user) && !IsPlaceholder(user) && FoldsOnce(config.fold)
    ensures Reaches(config, w) && Sound(config, w)
    ensures w == EMPTY.(known := {user}, logins := {user})
  {
    OneUser(config, user);
    w := User(user);
    UnregisterIsRightExactly(config, w.now, user, true);
    w := Do(config, w, DoUnregister(user, true));
    assert w.now == EMPTY.now;
  }

  /** Before that client is killed it reserves a nick. */
  lemma {:induction false} StaleReserveBreaks(config: Config, user: string, nick: string) returns (w: World)
    requires config.fold == Plain() && config.additionalNickLimit > 0 && AreNames([user, nick])
    ensures Breaks(config, w, DoReserve(user, nick))
  {
    assert [user, nick][0] == user && [user, nick][1] == nick;
    w := Erased(config, user);
    ReserveIsRightExactly(config, w.now, user, nick);
  }

  /** It does so when the name has been registered again; that account expires. */
  lemma {:induction false} ExpiryBreaks(config: Config, user: string, nick: string) returns (w: World)
    requires config.fold == Plain() && config.additionalNickLimit > 0 && AreNames([user, nick])
    ensures Breaks(config, w, DoExpire(user))
  {
    assert [user, nick][0] == user && [user, nick][1] == nick;
    w := Erased(config, user);
    w := SignUp(config, w, user, user, user);
    w := TakeNick(config, w, user, nick, nick, nick);
    ExpireIsRightExactly(config, w.now, user);
  }

  /** The name of an unregistered account is protected. */
  lemma {:induction false} Protected(config: Config, user: string) returns (w: World)
    requires config.fold.casefold(user) == config.fold.skeleton(user) == Some(user) && !IsPlaceholder(user)
    requires config.strict && FoldsOnce(config.fold)
    ensures Reaches(config, w) && Sound(config, w)
    ensures w == User(user).(now := State(map[], map[], map[], map[user := user], map[user := user], map[user := user]))
  {
    OneUser(config, user);
    UnregisterIsRightExactly(config, User(user).now, user, false);
    w := Do(config, User(user), DoUnregister(user, false));
  }

  /** A Rename that has found the account stores the new name after it has been unregistered; then the
      protection of the old name is ended. */
  lemma {:induction false} LateRenameBreaks(config: Config, user: string, newName: string) returns (w: World)
    requires config.fold == FoldingTo(newName, user) && config.strict && AreNames([user, newName])
    ensures Breaks(config, w, DoUnregister(user, true))
  {
    assert [user, newName][0] == user && [user, newName][1] == newName;
    w := Protected(config, user);
    RenameIsRightExactlyForTheSameSkeleton(config, w.now, user, newName);
    w := Do(config, w, DoRename(user, newName));
    assert w.now.names == map[user := newName] && w.now.unregistered == map[user := user] && w.now.accounts == map[];
    ErasedIsRightExactly(config, w.now, user);
  }
}
