/** Who can gain which privileges in a registered channel (irc/channel.go, irc/modes.go, irc/chanserv.go).

    Every check and every change is a step of its own, as they are separate critical sections: between the
    check of a MODE or KICK and its effect, or between reading a stored grant and giving it, other steps
    may come. A client keeps its account and its nickname. */
module ChannelPrivileges {
  import opened ChannelModes

  type Client = nat
  type Tid = nat

  datatype Op = Add | Remove | List

  datatype ModeChange<T> = ModeChange(op: Op, mode: Mode, arg: T)

  /** `account` is "" for a client that is not logged in, `founder` is "" for an unregistered channel. */
  datatype Config = Config(account: Client -> string, founder: string)

  type Members = map<Client, set<Mode>>

  type Grants = map<string, Mode>

  datatype Thread =
    | Changing(change: ModeChange<Client>)      // checked, applyModeToMember comes next
    | Propagating(grant: ModeChange<string>)   // AMODE has changed the grant, current members come next
    | Joining(client: Client, mode: Mode)       // has read its stored grant
    | Kicking(target: Client)                   // checked

  datatype State = State(members: Members, stored: Grants, threads: map<Tid, Thread>)

  datatype Action =
    | CheckMode(t: Tid, actor: Client, isSamode: bool, change: ModeChange<Client>)
    | ApplyMode(t: Tid)
    | Amode(t: Tid, actor: Client, isOper: bool, grant: ModeChange<string>)
    | ApplyAmode(t: Tid, member: Client)
    | FinishAmode(t: Tid)
    | StartJoin(t: Tid, client: Client)
    | AddMember(t: Tid)
    | CsOp(t: Tid, client: Client, target: Client)
    | CheckKick(t: Tid, actor: Client, hasPrivs: bool, target: Client)
    | FinishKick(t: Tid)
    | Quit(client: Client)

  // ---------------------------------------------------------------- what the code checks and changes

  function Stored(stored: Grants, account: string): Mode {
    if account in stored then stored[account] else NoMode
  }

  function Live(members: Members, client: Client): set<Mode> {
    if client in members then members[client] else {}
  }

  predicate IsFounder(config: Config, client: Client) {
    config.founder != "" && config.account(client) == config.founder
  }

  /** hasPrivs of ApplyChannelModeChanges, for channel-user modes. */
  predicate MayChange(config: Config, members: Members, actor: Client, isSamode: bool, change: ModeChange<Client>) {
    || isSamode
    || IsFounder(config, actor)
    || change.op.List?
    || (change.op.Remove? && change.arg == actor)
    || HasPrivsOver(Highest(Live(members, actor)), change.mode)
  }

  /** applyModeToMember. */
  function ChangeMember(members: Members, target: Client, op: Op, mode: Mode): Members {
    if target !in members then members
    else members[target := if op.Add? then members[target] + {mode} else members[target] - {mode}]
  }

  /** The check of ProcessAccountToUmodeChange. */
  predicate MayChangeGrant(config: Config, stored: Grants, actor: Client, isOper: bool, change: ModeChange<string>) {
    var clientMode, targetModeNow := Stored(stored, config.account(actor)), Stored(stored, change.arg);
    var targetModeAfter := if change.op.Add? then change.mode else NoMode;
    || isOper
    || (config.account(actor) != "" && config.account(actor) == config.founder)
    || (change.op.List? && Rank(clientMode) >= Rank(Halfop))
    || (HasPrivsOver(clientMode, targetModeNow) && HasPrivsOver(clientMode, targetModeAfter))
    || (change.op.Remove? && config.account(actor) == change.arg)
  }

  /** Whether a permitted change has an effect. */
  predicate ChangesGrant(stored: Grants, change: ModeChange<string>) {
    match change.op
    case Add => Stored(stored, change.arg) != change.mode
    case Remove => Stored(stored, change.arg) == change.mode
    case List => false
  }

  function ChangeGrant(stored: Grants, change: ModeChange<string>): Grants {
    if !ChangesGrant(stored, change) then stored
    else if change.op.Add? then stored[change.arg := change.mode]
    else stored - {change.arg}
  }

  /** What CS OP gives, by a client that is logged in: the own stored grant, or what the founder may give. */
  function OpMode(config: Config, stored: Grants, client: Client, target: Client): Mode {
    if target == client then
      if config.account(client) == config.founder then ChannelFounder else Stored(stored, config.account(client))
    else if config.account(client) == config.founder then ChannelOperator
    else NoMode
  }

  /** ClientHasPrivsOver, which an operator's privilege replaces. */
  predicate MayKick(config: Config, members: Members, actor: Client, hasPrivs: bool, target: Client) {
    || hasPrivs
    || IsFounder(config, actor)
    || (!IsFounder(config, target) && actor in members && target in members &&
        HasPrivsOver(Highest(members[actor]), Highest(members[target])))
  }

  /** The new member of Channel.Join has at most the mode it is given. */
  function AddToMembers(config: Config, members: Members, client: Client, mode: Mode): Members {
    var given := if (members.Keys + {client} == {client}) && config.founder == "" then ChannelOperator else mode;
    members[client := if given == NoMode then {} else {given}]
  }

  // ---------------------------------------------------------------- interleavings

  predicate IsGrantChange(change: ModeChange<string>) {
    change.op.List? || (change.mode != NoMode && change.arg != "")
  }

  ghost predicate Enabled(config: Config, s: State, a: Action) {
    match a
    case CheckMode(t, _, _, change) => t !in s.threads && change.mode != NoMode
    case ApplyMode(t) => t in s.threads && s.threads[t].Changing?
    case Amode(t, _, _, change) => t !in s.threads && IsGrantChange(change)
    case ApplyAmode(t, member) =>
      && t in s.threads && s.threads[t].Propagating?
      && member in s.members && config.account(member) == s.threads[t].grant.arg
    case FinishAmode(t) => t in s.threads && s.threads[t].Propagating?
    case StartJoin(t, client) => t !in s.threads && client !in s.members
    case AddMember(t) => t in s.threads && s.threads[t].Joining?
    case CsOp(t, client, _) => t !in s.threads && config.account(client) != ""
    case CheckKick(t, _, _, _) => t !in s.threads
    case FinishKick(t) => t in s.threads && s.threads[t].Kicking?
    case Quit(_) => true
  }

  function Go(s: State, t: Tid, pc: Thread): State {
    s.(threads := s.threads[t := pc])
  }

  function Stop(s: State, t: Tid): State {
    s.(threads := s.threads - {t})
  }

  ghost function Next(config: Config, s: State, a: Action): State
    requires Enabled(config, s, a)
  {
    match a
    case CheckMode(t, actor, isSamode, change) =>
      if MayChange(config, s.members, actor, isSamode, change) && !change.op.List? then Go(s, t, Changing(change)) else s
    case ApplyMode(t) =>
      var change := s.threads[t].change;
      Stop(s.(members := ChangeMember(s.members, change.arg, change.op, change.mode)), t)
    case Amode(t, actor, isOper, change) =>
      if MayChangeGrant(config, s.stored, actor, isOper, change) && ChangesGrant(s.stored, change)
      then Go(s.(stored := ChangeGrant(s.stored, change)), t, Propagating(change))
      else s
    case ApplyAmode(t, member) =>
      s.(members := ChangeMember(s.members, member, s.threads[t].grant.op, s.threads[t].grant.mode))
    case FinishAmode(t) => Stop(s, t)
    case StartJoin(t, client) => Go(s, t, Joining(client, Stored(s.stored, config.account(client))))
    case AddMember(t) =>
      var Joining(client, mode) := s.threads[t];
      Stop(s.(members := AddToMembers(config, s.members, client, mode)), t)
    case CsOp(t, client, target) =>
      var mode := OpMode(config, s.stored, client, target);
      if mode == NoMode then s else Go(s, t, Changing(ModeChange(Add, mode, target)))
    case CheckKick(t, actor, hasPrivs, target) =>
      if MayKick(config, s.members, actor, hasPrivs, target) && target in s.members then Go(s, t, Kicking(target)) else s
    case FinishKick(t) => Stop(s.(members := s.members - {s.threads[t].target}), t)
    case Quit(client) => s.(members := s.members - {client})
  }

  ghost predicate IsRun(config: Config, s: State, actions: seq<Action>, s': State)
    decreases actions
  {
    if actions == [] then s' == s
    else Enabled(config, s, actions[0]) && IsRun(config, Next(config, s, actions[0]), actions[1..], s')
  }

  /** Who becomes a member and who ceases to be one. */
  lemma {:induction false} StepChangesMembers(config: Config, s: State, a: Action, client: Client)
    requires Enabled(config, s, a)
    ensures var joins := a.AddMember? && s.threads[a.t].client == client;
            var leaves := (a.Quit? && a.client == client) || (a.FinishKick? && s.threads[a.t].target == client);
            client in Next(config, s, a).members <==> joins || (client in s.members && !leaves)
    ensures a.CheckKick? && client == a.target && client !in s.members ==> Next(config, s, a) == s
  {
  }

  // ---------------------------------------------------------------- non-escalation

  /** Who acts: no server operator, no founder, and only clients of `actors`. Anyone may join, part and
      use CS OP on itself. */
  ghost predicate Modest(config: Config, actors: set<Client>, a: Action) {
    match a
    case CheckMode(_, actor, isSamode, _) => actor in actors && !isSamode
    case Amode(_, actor, isOper, _) => actor in actors && !isOper
    case CheckKick(_, actor, hasPrivs, _) => actor in actors && !hasPrivs
    case CsOp(_, client, _) => !IsFounder(config, client)
    case _ => true
  }

  ghost predicate AllModest(config: Config, actors: set<Client>, actions: seq<Action>) {
    forall a :: a in actions ==> Modest(config, actors, a)
  }

  /** The actors have neither a live nor a stored mode above rank `m`, and none of them is the founder. */
  ghost predicate ActorsBelow(config: Config, actors: set<Client>, members: Members, stored: Grants, m: nat) {
    && (forall c, mode :: c in actors && c in members && mode in members[c] ==> Rank(mode) <= m)
    && (forall c :: c in actors ==> Rank(Stored(stored, config.account(c))) <= m && !IsFounder(config, c))
  }

  /** A mode that `client` may come to have: one that the actors can hand out, or its own stored one. */
  ghost predicate MayGet(config: Config, stored: Grants, m: nat, client: Client, mode: Mode) {
    Rank(mode) <= Reach(m) || mode == Stored(stored, config.account(client))
  }

  /** `stored` differs from `before` in no grant above m, and has no new grant above Reach(m). */
  ghost predicate GrantsKept(before: Grants, stored: Grants, m: nat) {
    forall account {:trigger Stored(stored, account)} {:trigger Stored(before, account)} ::
      && (Rank(Stored(before, account)) > m ==> Stored(stored, account) == Stored(before, account))
      && (Rank(Stored(stored, account)) > Reach(m) ==> Stored(stored, account) == Stored(before, account))
  }

  ghost predicate ThreadInv(config: Config, actors: set<Client>, before: Grants, m: nat, pc: Thread) {
    match pc
    case Changing(change) =>
      && change.mode != NoMode && !change.op.List?
      && (change.op.Add? ==> MayGet(config, before, m, change.arg, change.mode))
      && (change.op.Remove? ==> Rank(change.mode) <= Reach(m) || change.arg in actors)
    case Propagating(grant) =>
      && grant.mode != NoMode && !grant.op.List?
      && (grant.op.Add? ==> Rank(grant.mode) <= Reach(m))
      && (grant.op.Remove? ==> Rank(grant.mode) <= m)
    case Joining(client, mode) => MayGet(config, before, m, client, mode)
    case Kicking(_) => true
  }

  ghost predicate Inv(config: Config, actors: set<Client>, before: Grants, m: nat, s: State) {
    && config.founder != ""
    && GrantsKept(before, s.stored, m)
    && ActorsBelow(config, actors, s.members, before, m)
    && forall t :: t in s.threads ==> ThreadInv(config, actors, before, m, s.threads[t])
  }

  lemma {:induction false} ActorsStoredBelow(config: Config, actors: set<Client>, before: Grants, m: nat, s: State, c: Client)
    requires Inv(config, actors, before, m, s) && c in actors
    ensures Rank(Stored(s.stored, config.account(c))) <= m
  {
    assert Rank(Stored(before, config.account(c))) <= m;
    ReachIsBelow(m);
  }

  lemma {:induction false} ReachIsBelow(m: nat)
    ensures Reach(m) <= m
  {
  }

  lemma {:induction false} CheckModeKeepsInv(config: Config, actors: set<Client>, before: Grants, m: nat, s: State, a: Action)
    requires Inv(config, actors, before, m, s) && Enabled(config, s, a) && Modest(config, actors, a) && a.CheckMode?
    ensures Inv(config, actors, before, m, Next(config, s, a))
  {
    var own := Highest(Live(s.members, a.actor));
    assert Rank(own) <= m && !IsFounder(config, a.actor);
    if HasPrivsOver(own, a.change.mode) {
      HigherHasMorePrivs(own, a.change.mode, m);
    }
  }

  lemma {:induction false} AmodeKeepsGrants(config: Config, actors: set<Client>, before: Grants, m: nat, s: State, a: Action)
    requires Inv(config, actors, before, m, s) && Enabled(config, s, a) && Modest(config, actors, a) && a.Amode?
    requires MayChangeGrant(config, s.stored, a.actor, a.isOper, a.grant) && ChangesGrant(s.stored, a.grant)
    ensures GrantsKept(before, ChangeGrant(s.stored, a.grant), m)
    ensures a.grant.op.Add? ==> Rank(a.grant.mode) <= Reach(m)
    ensures a.grant.op.Remove? ==> Rank(a.grant.mode) <= m
  {
    var own, now := Stored(s.stored, config.account(a.actor)), Stored(s.stored, a.grant.arg);
    ActorsStoredBelow(config, actors, before, m, s, a.actor);
    assert !IsFounder(config, a.actor);
    ReachIsBelow(m);
    if a.grant.op.Add? {
      HigherHasMorePrivs(own, a.grant.mode, m);
    }
    assert Rank(now) <= m by {
      if config.account(a.actor) != a.grant.arg || !a.grant.op.Remove? {
        HigherHasMorePrivs(own, now, m);
      }
    }
    assert Rank(Stored(before, a.grant.arg)) <= m;
    var after := ChangeGrant(s.stored, a.grant);
    forall account
      ensures Rank(Stored(before, account)) > m ==> Stored(after, account) == Stored(before, account)
      ensures Rank(Stored(after, account)) > Reach(m) ==> Stored(after, account) == Stored(before, account)
    {
      if account != a.grant.arg {
        assert Stored(after, account) == Stored(s.stored, account);
      }
    }
  }

  lemma {:induction false} AmodeKeepsInv(config: Config, actors: set<Client>, before: Grants, m: nat, s: State, a: Action)
    requires Inv(config, actors, before, m, s) && Enabled(config, s, a) && Modest(config, actors, a) && a.Amode?
    ensures Inv(config, actors, before, m, Next(config, s, a))
  {
    if MayChangeGrant(config, s.stored, a.actor, a.isOper, a.grant) && ChangesGrant(s.stored, a.grant) {
      AmodeKeepsGrants(config, actors, before, m, s, a);
    }
  }

  /** Every mode that a member has and did not have before the step is one it may get. */
  lemma {:induction false} StepGives(config: Config, actors: set<Client>, before: Grants, m: nat, s: State, a: Action, c: Client, mode: Mode)
    requires Inv(config, actors, before, m, s) && Enabled(config, s, a)
    requires mode in Live(Next(config, s, a).members, c) && mode !in Live(s.members, c)
    ensures MayGet(config, before, m, c, mode)
  {
  }

  lemma {:induction false} MembersKeepInv(config: Config, actors: set<Client>, before: Grants, m: nat, s: State, a: Action)
    requires Inv(config, actors, before, m, s) && Enabled(config, s, a) && !a.CheckMode? && !a.Amode?
    requires Modest(config, actors, a)
    ensures Inv(config, actors, before, m, Next(config, s, a))
  {
    var n := Next(config, s, a);
    ReachIsBelow(m);
    forall c, mode | c in actors && c in n.members && mode in n.members[c] ensures Rank(mode) <= m {
      if mode !in Live(s.members, c) {
        StepGives(config, actors, before, m, s, a, c, mode);
        assert Rank(Stored(before, config.account(c))) <= m;
      }
    }
    forall t | t in n.threads ensures ThreadInv(config, actors, before, m, n.threads[t]) {
      if a.StartJoin? || a.CsOp? {
        assert Rank(Stored(s.stored, config.account(a.client))) > Reach(m) ==>
            Stored(s.stored, config.account(a.client)) == Stored(before, config.account(a.client));
      }
    }
  }

  lemma {:induction false} StepKeepsInv(config: Config, actors: set<Client>, before: Grants, m: nat, s: State, a: Action)
    requires Inv(config, actors, before, m, s) && Enabled(config, s, a) && Modest(config, actors, a)
    ensures Inv(config, actors, before, m, Next(config, s, a))
  {
    if a.CheckMode? {
      CheckModeKeepsInv(config, actors, before, m, s, a);
    } else if a.Amode? {
      AmodeKeepsInv(config, actors, before, m, s, a);
    } else {
      MembersKeepInv(config, actors, before, m, s, a);
    }
  }

  /** What the actors could do from the start: nothing in flight, and nothing above `m` in their hands. */
  ghost predicate Start(config: Config, actors: set<Client>, m: nat, s: State) {
    config.founder != "" && s.threads == map[] && ActorsBelow(config, actors, s.members, s.stored, m)
  }

  lemma {:induction false} StartHasInv(config: Config, actors: set<Client>, m: nat, s: State)
    requires Start(config, actors, m, s)
    ensures Inv(config, actors, s.stored, m, s)
  {
  }

  lemma {:induction false} RunKeepsInv(config: Config, actors: set<Client>, before: State, m: nat, s: State,
                                       actions: seq<Action>, s': State)
    requires Inv(config, actors, before.stored, m, s) && AllModest(config, actors, actions) && IsRun(config, s, actions, s')
    requires LiveKept(config, before, s.members, m)
    ensures Inv(config, actors, before.stored, m, s') && LiveKept(config, before, s'.members, m)
    decreases actions
  {
    if actions != [] {
      var a, n := actions[0], Next(config, s, actions[0]);
      assert a in actions;
      StepKeepsInv(config, actors, before.stored, m, s, a);
      forall c, mode | c in n.members && mode in n.members[c] && mode !in Live(s.members, c)
        ensures MayGet(config, before.stored, m, c, mode)
      {
        StepGives(config, actors, before.stored, m, s, a, c, mode);
      }
      RunKeepsInv(config, actors, before, m, n, actions[1..], s');
    }
  }

  /** Every live mode was there before, or can be handed out by the actors, or is the client's own grant. */
  ghost predicate LiveKept(config: Config, before: State, members: Members, m: nat) {
    forall c, mode :: c in members && mode in members[c] ==>
      mode in Live(before.members, c) || MayGet(config, before.stored, m, c, mode)
  }

  /** No sequence of MODE, AMODE, KICK, CS OP, CS DEOP, joins and parts, however interleaved, gives away
      more than a single check allows: no stored grant above `m` appears or disappears, and nobody gets a
      live mode that the actors cannot hand out, other than its own stored one. */
  lemma {:induction false} NoEscalation(config: Config, actors: set<Client>, m: nat, s: State, actions: seq<Action>, s': State)
    requires Start(config, actors, m, s) && AllModest(config, actors, actions) && IsRun(config, s, actions, s')
    ensures GrantsKept(s.stored, s'.stored, m) && LiveKept(config, s, s'.members, m)
    ensures ActorsBelow(config, actors, s'.members, s'.stored, m)
  {
    StartHasInv(config, actors, m, s);
    RunKeepsInv(config, actors, s, m, s, actions, s');
    forall c | c in actors ensures Rank(Stored(s'.stored, config.account(c))) <= m {
      ActorsStoredBelow(config, actors, s.stored, m, s', c);
    }
  }

  /** The same, in ranks. */
  lemma {:induction false} NoHigherRank(config: Config, actors: set<Client>, m: nat, s: State, actions: seq<Action>, s': State, c: Client)
    requires Start(config, actors, m, s) && AllModest(config, actors, actions) && IsRun(config, s, actions, s')
    ensures var rank := Rank(Highest(Live(s'.members, c)));
            rank <= m || rank <= Rank(Highest(Live(s.members, c))) || rank == Rank(Stored(s.stored, config.account(c)))
  {
    NoEscalation(config, actors, m, s, actions, s');
    ReachIsBelow(m);
    var mode := Highest(Live(s'.members, c));
    if mode != NoMode {
      assert mode in Live(s.members, c) || MayGet(config, s.stored, m, c, mode);
    }
  }

  // ---------------------------------------------------------------- nobody is brought down from above

  /** `c` has the mode, and nobody is about to replace its modes or to remove it. */
  ghost predicate IsSafe(s: State, c: Client, mode: Mode) {
    && mode in Live(s.members, c)
    && forall t :: t in s.threads ==>
         (s.threads[t].Joining? ==> s.threads[t].client != c) && (s.threads[t].Kicking? ==> s.threads[t].target != c)
  }

  lemma {:induction false} StepKeepsSafe(config: Config, actors: set<Client>, before: Grants, m: nat, s: State, a: Action, c: Client, mode: Mode)
    requires Inv(config, actors, before, m, s) && Enabled(config, s, a) && Modest(config, actors, a)
    requires IsSafe(s, c, mode) && Rank(mode) > m && a != Quit(c)
    ensures IsSafe(Next(config, s, a), c, mode)
  {
    ReachIsBelow(m);
    if a.CheckKick? && MayKick(config, s.members, a.actor, a.hasPrivs, a.target) && a.target in s.members {
      assert !IsFounder(config, a.actor);
      HigherHasMorePrivs(Highest(s.members[a.actor]), Highest(s.members[a.target]), m);
    } else if a.ApplyMode? || a.ApplyAmode? || a.AddMember? || a.FinishKick? {
      assert ThreadInv(config, actors, before, m, s.threads[a.t]);
      assert c in s.members && mode in s.members[c];
      assert c !in actors;
    }
  }

  lemma {:induction false} RunKeepsSafe(config: Config, actors: set<Client>, before: Grants, m: nat, s: State,
                                        actions: seq<Action>, s': State, c: Client, mode: Mode)
    requires Inv(config, actors, before, m, s) && AllModest(config, actors, actions) && IsRun(config, s, actions, s')
    requires IsSafe(s, c, mode) && Rank(mode) > m && Quit(c) !in actions
    ensures mode in Live(s'.members, c)
    decreases actions
  {
    if actions != [] {
      assert actions[0] in actions;
      StepKeepsInv(config, actors, before, m, s, actions[0]);
      StepKeepsSafe(config, actors, before, m, s, actions[0], c, mode);
      RunKeepsSafe(config, actors, before, m, Next(config, s, actions[0]), actions[1..], s', c, mode);
    }
  }

  /** A member with a mode above `m` keeps it until it leaves of its own accord: the actors can neither
      take the mode nor kick the member. */
  lemma {:induction false} HigherModesAreSafe(config: Config, actors: set<Client>, m: nat, s: State, actions: seq<Action>, s': State,
                           c: Client, mode: Mode)
    requires Start(config, actors, m, s) && AllModest(config, actors, actions) && IsRun(config, s, actions, s')
    requires mode in Live(s.members, c) && Rank(mode) > m && Quit(c) !in actions
    ensures mode in Live(s'.members, c)
  {
    StartHasInv(config, actors, m, s);
    RunKeepsSafe(config, actors, s.stored, m, s, actions, s', c, mode);
  }

  // ---------------------------------------------------------------- building runs

  ghost predicate Reaches(config: Config, actors: set<Client>, s: State, s': State) {
    exists actions :: AllModest(config, actors, actions) && IsRun(config, s, actions, s')
  }

  lemma {:induction false} RunExtends(config: Config, s: State, actions: seq<Action>, n: State, a: Action)
    requires IsRun(config, s, actions, n) && Enabled(config, n, a)
    ensures IsRun(config, s, actions + [a], Next(config, n, a))
    decreases actions
  {
    if actions == [] {
      assert [] + [a] == [a] && [a][1..] == [];
      assert IsRun(config, Next(config, n, a), [], Next(config, n, a));
    } else {
      assert (actions + [a])[1..] == actions[1..] + [a];
      RunExtends(config, Next(config, s, actions[0]), actions[1..], n, a);
    }
  }

  lemma {:induction false} ReachesItself(config: Config, actors: set<Client>, s: State)
    ensures Reaches(config, actors, s, s)
  {
    assert AllModest(config, actors, []) && IsRun(config, s, [], s);
  }

  lemma {:induction false} ReachesNext(config: Config, actors: set<Client>, s: State, n: State, a: Action)
    requires Reaches(config, actors, s, n) && Enabled(config, n, a) && Modest(config, actors, a)
    ensures Reaches(config, actors, s, Next(config, n, a))
  {
    var actions :| AllModest(config, actors, actions) && IsRun(config, s, actions, n);
    RunExtends(config, s, actions, n, a);
    assert AllModest(config, actors, actions + [a]);
  }
}
