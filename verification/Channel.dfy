/** A channel's members and stored grants, as the commands change them (irc/channel.go, irc/modes.go,
    irc/chanserv.go). Each command is proved against the functions of ChannelPrivileges and to be a run of
    its steps, in which only the given client acts; here the steps of one command are not interrupted. */
module Channel {
  import opened Common
  import opened ChannelModes
  import opened ChannelPrivileges

  datatype Error = InsufficientPrivs

  datatype JoinError = LimitExceeded | WrongChannelKey | InviteOnly | Banned | RegisteredOnly | CannotAddChannel

  /** The settings that JOIN looks at; a limit of 0 is none. */
  datatype Settings = Settings(userLimit: nat, hasKey: bool, isInviteOnly: bool, isRegisteredOnly: bool)

  /** What is known of the client that wants to join: SAJOIN, an invitation, the key it gave, the lists its
      hostmask is on, and whether it may be in one more channel. */
  datatype JoinRequest = JoinRequest(isSajoin: bool, isInvited: bool, keyMatches: bool, onInviteList: bool, onBanList: bool,
                                     onExceptList: bool, hasRoom: bool)

  lemma {:induction false} AddToMembersIs(config: Config, members: Members, client: Client, mode: Mode)
    requires client !in members
    ensures AddToMembers(config, members, client, mode) ==
            if members == map[] && config.founder == "" then map[client := {ChannelOperator}]
            else members[client := if mode == NoMode then {} else {mode}]
  {
    assert members.Keys + {client} == {client} <==> members == map[] by {
      if members != map[] {
        var other :| other in members;
        assert other in members.Keys + {client};
      }
    }
  }

  /** Members after a whole MODE command. */
  function AfterChanges(config: Config, members: Members, actor: Client, isSamode: bool, changes: seq<ModeChange<Client>>): Members
    decreases |changes|
  {
    if changes == [] then members
    else AfterChanges(config, AfterChange(config, members, actor, isSamode, changes[0]), actor, isSamode, changes[1..])
  }

  /** The changes that have an effect. */
  function Applied(config: Config, members: Members, actor: Client, isSamode: bool, changes: seq<ModeChange<Client>>): seq<ModeChange<Client>>
    decreases |changes|
  {
    if changes == [] then []
    else
      var after := AfterChange(config, members, actor, isSamode, changes[0]);
      (if after != members then [changes[0]] else []) + Applied(config, after, actor, isSamode, changes[1..])
  }

  function AfterChange(config: Config, members: Members, actor: Client, isSamode: bool, change: ModeChange<Client>): Members {
    if MayChange(config, members, actor, isSamode, change) && !change.op.List?
    then ChangeMember(members, change.arg, change.op, change.mode)
    else members
  }

  /** Whether a change of modes has an effect: by SAMODE, by the founder, of one's own mode, or of a mode that
      one's highest mode has privileges over. */
  predicate IsPermitted(config: Config, members: Members, actor: Client, isSamode: bool, change: ModeChange<Client>) {
    var mine := if actor in members then Highest(members[actor]) else NoMode;
    !change.op.List? &&
    (|| isSamode
     || (config.founder != "" && config.account(actor) == config.founder)
     || (change.op.Remove? && change.arg == actor)
     || mine == ChannelFounder
     || (mine in {ChannelAdmin, ChannelOperator} && change.mode in {ChannelOperator, Halfop, Voice})
     || (mine == Halfop && change.mode == Voice))
  }

  lemma {:induction false} AfterChangeIs(config: Config, members: Members, actor: Client, isSamode: bool, change: ModeChange<Client>)
    requires change.mode != NoMode
    ensures var after := AfterChange(config, members, actor, isSamode, change);
            && after.Keys == members.Keys
            && forall c, mode :: c in members ==>
                 (mode in after[c] <==>
                    if IsPermitted(config, members, actor, isSamode, change) && c == change.arg && mode == change.mode
                    then change.op.Add? else mode in members[c])
  {
    PrivsAreRanks(Highest(Live(members, actor)), change.mode);
  }

  /** What is reported, replayed without any check, gives the same members. */
  function Replayed(members: Members, applied: seq<ModeChange<Client>>): Members
    decreases |applied|
  {
    if applied == [] then members else Replayed(ChangeMember(members, applied[0].arg, applied[0].op, applied[0].mode), applied[1..])
  }

  predicate EachHasEffect(members: Members, applied: seq<ModeChange<Client>>)
    decreases |applied|
  {
    applied == [] ||
    (var after := ChangeMember(members, applied[0].arg, applied[0].op, applied[0].mode);
     after != members && EachHasEffect(after, applied[1..]))
  }

  lemma {:induction false} AppliedReplays(config: Config, members: Members, actor: Client, isSamode: bool, changes: seq<ModeChange<Client>>)
    ensures Replayed(members, Applied(config, members, actor, isSamode, changes)) == AfterChanges(config, members, actor, isSamode, changes)
    ensures EachHasEffect(members, Applied(config, members, actor, isSamode, changes))
    decreases |changes|
  {
    if changes != [] {
      var after := AfterChange(config, members, actor, isSamode, changes[0]);
      var rest := Applied(config, after, actor, isSamode, changes[1..]);
      AppliedReplays(config, after, actor, isSamode, changes[1..]);
      assert ([changes[0]] + rest)[1..] == rest && [] + rest == rest;
    }
  }

  /** Whether the last change of this mode of this client adds it; `before` if there is none. */
  predicate LastWord(changes: seq<ModeChange<Client>>, target: Client, mode: Mode, before: bool)
    decreases |changes|
  {
    if changes == [] then before
    else
      var last := changes[|changes| - 1];
      if last.arg == target && last.mode == mode && !last.op.List? then last.op.Add?
      else LastWord(changes[..|changes| - 1], target, mode, before)
  }

  lemma {:induction false} AfterChangesAppend(config: Config, members: Members, actor: Client, isSamode: bool,
                                              changes: seq<ModeChange<Client>>, more: seq<ModeChange<Client>>)
    ensures AfterChanges(config, members, actor, isSamode, changes + more) ==
            AfterChanges(config, AfterChanges(config, members, actor, isSamode, changes), actor, isSamode, more)
    decreases |changes|
  {
    if changes == [] {
      assert [] + more == more;
    } else {
      assert (changes + more)[1..] == changes[1..] + more;
      AfterChangesAppend(config, AfterChange(config, members, actor, isSamode, changes[0]), actor, isSamode, changes[1..], more);
    }
  }

  /** By SAMODE, or by the founder: every member ends up with exactly the modes that the last change of each says. */
  lemma {:induction false} LastChangeWins(config: Config, members: Members, actor: Client, isSamode: bool, changes: seq<ModeChange<Client>>,
                                          target: Client, mode: Mode)
    requires isSamode || (config.founder != "" && config.account(actor) == config.founder)
    requires target in members && forall change :: change in changes ==> change.mode != NoMode
    ensures var after := AfterChanges(config, members, actor, isSamode, changes);
            target in after && (mode in after[target] <==> LastWord(changes, target, mode, mode in members[target]))
    decreases |changes|
  {
    if changes != [] {
      var before, last := changes[..|changes| - 1], changes[|changes| - 1];
      LastChangeWins(config, members, actor, isSamode, before, target, mode);
      assert changes == before + [last] && last in changes;
      AfterChangesAppend(config, members, actor, isSamode, before, [last]);
      AfterChangeIs(config, AfterChanges(config, members, actor, isSamode, before), actor, isSamode, last);
      assert [last][1..] == [];
    }
  }

  /** Members after the current members of an account have been given or denied a mode. */
  function AfterAmode(config: Config, members: Members, grant: ModeChange<string>): Members {
    map c | c in members ::
      if config.account(c) == grant.arg
      then (if grant.op.Add? then members[c] + {grant.mode} else members[c] - {grant.mode})
      else members[c]
  }

  class Channel {
    const config: Config
    var members: Members
    var accountToUMode: Grants

    ghost function Quiet(): State
      reads this
    {
      State(members, accountToUMode, map[])
    }

    constructor (config: Config, accountToUMode: Grants)
      ensures this.config == config && members == map[] && this.accountToUMode == accountToUMode
    {
      this.config, this.accountToUMode := config, accountToUMode;
      members := map[];
    }

    /** Sets or unsets a mode of a member, and says whether that changed anything. */
    method ApplyModeToMember(target: Client, op: Op, mode: Mode) returns (applied: bool)
      modifies this`members
      ensures members == ChangeMember(old(members), target, op, mode)
      ensures applied <==> members != old(members)
    {
      applied := false;
      if target in members {
        applied := if op.Add? then mode !in members[target] else mode in members[target];
        members := members[target := if op.Add? then members[target] + {mode} else members[target] - {mode}];
        assert applied <==> members[target] != old(members)[target];
        assert old(members)[target := old(members)[target]] == old(members);
      }
    }

    /** MODE or SAMODE with changes of channel-user modes. */
    method ApplyChannelModeChanges(client: Client, isSamode: bool, changes: seq<ModeChange<Client>>)
      returns (applied: seq<ModeChange<Client>>)
      requires forall change :: change in changes ==> change.mode != NoMode
      modifies this`members
      ensures members == AfterChanges(config, old(members), client, isSamode, changes)
      ensures applied == Applied(config, old(members), client, isSamode, changes)
      ensures !isSamode ==> Reaches(config, {client}, old(Quiet()), Quiet())
    {
      applied := [];
      ReachesItself(config, {client}, Quiet());
      for i := 0 to |changes|
        invariant AfterChanges(config, members, client, isSamode, changes[i..]) == AfterChanges(config, old(members), client, isSamode, changes)
        invariant applied + Applied(config, members, client, isSamode, changes[i..]) == Applied(config, old(members), client, isSamode, changes)
        invariant !isSamode ==> Reaches(config, {client}, old(Quiet()), Quiet())
      {
        NextChange(config, members, client, isSamode, changes, i, applied);
        var success := ApplyChange(old(Quiet()), client, isSamode, changes[i]);
        if success {
          applied := applied + [changes[i]];
        }
      }
      assert changes[|changes|..] == [];
    }

    /** One change: it is checked and, if permitted, applied. */
    method ApplyChange(ghost start: State, client: Client, isSamode: bool, change: ModeChange<Client>) returns (applied: bool)
      requires change.mode != NoMode && (!isSamode ==> Reaches(config, {client}, start, Quiet()))
      modifies this`members
      ensures members.Keys == old(members).Keys && forall c, mode :: c in members ==>
                (mode in members[c] <==>
                   if IsPermitted(config, old(members), client, isSamode, change) && c == change.arg && mode == change.mode
                   then change.op.Add? else mode in old(members)[c])
      ensures members == AfterChange(config, old(members), client, isSamode, change)
      ensures applied <==> members != old(members)
      ensures !isSamode ==> Reaches(config, {client}, start, Quiet())
    {
      var highest := HighestChannelUserMode(if client in members then members[client] else {});
      var hasPrivs :=
        || isSamode
        || (config.founder != "" && config.account(client) == config.founder)
        || change.op.List?
        || (change.op.Remove? && change.arg == client)
        || HasPrivsOver(highest, change.mode);
      AfterChangeIs(config, members, client, isSamode, change);
      applied := false;
      if hasPrivs && !change.op.List? {
        if !isSamode {
          ModeIsTwoSteps(config, start, members, accountToUMode, client, change);
        }
        applied := ApplyModeToMember(change.arg, change.op, change.mode);
      }
    }

    /** AMODE on the stored grants. */
    method ProcessAccountToUmodeChange(client: Client, isOper: bool, change: ModeChange<string>)
      returns (result: Result<seq<ModeChange<string>>, Error>)
      modifies this`accountToUMode
      ensures var mine := if config.account(client) in old(accountToUMode) then old(accountToUMode)[config.account(client)] else NoMode;
              var theirs := if change.arg in old(accountToUMode) then old(accountToUMode)[change.arg] else NoMode;
              var highest := if change.op.Add? && Rank(change.mode) > Rank(theirs) then change.mode else theirs;
              result.Ok? <==>
                || isOper
                || (config.account(client) != "" && config.account(client) == config.founder)
                || (change.op.Remove? && config.account(client) == change.arg)
                || (change.op.List? && Rank(mine) >= Rank(Halfop))
                || mine == ChannelFounder
                || (mine in {ChannelAdmin, ChannelOperator} && Rank(highest) <= Rank(ChannelOperator))
                || (mine == Halfop && Rank(highest) <= Rank(Voice))
      ensures result.Ok? && change.op.Add? && change.mode != NoMode ==> accountToUMode == old(accountToUMode)[change.arg := change.mode]
      ensures result.Ok? && change.op.Remove? && change.arg in old(accountToUMode) && old(accountToUMode)[change.arg] == change.mode ==>
                accountToUMode == old(accountToUMode) - {change.arg}
      ensures result.Err? || change.op.List? ==> accountToUMode == old(accountToUMode)
      ensures result.Ok? <==> MayChangeGrant(config, old(accountToUMode), client, isOper, change)
      ensures accountToUMode == if result.Ok? then ChangeGrant(old(accountToUMode), change) else old(accountToUMode)
      ensures result.Ok? && !change.op.List? ==>
                result.value == if ChangesGrant(old(accountToUMode), change) then [change] else []
      ensures result.Ok? && change.op.List? ==>
                && (forall r :: r in result.value <==> r == ModeChange(Add, Stored(accountToUMode, r.arg), r.arg) && r.arg in accountToUMode)
                && |result.value| == |accountToUMode|
    {
      var account := config.account(client);
      var clientMode := if account in accountToUMode then accountToUMode[account] else NoMode;
      var targetModeNow := if change.arg in accountToUMode then accountToUMode[change.arg] else NoMode;
      var targetModeAfter := if change.op.Add? then change.mode else NoMode;
      PrivsAreRanks(clientMode, targetModeNow);
      PrivsAreRanks(clientMode, targetModeAfter);
      var hasPrivs := isOper || (account != "" && account == config.founder);
      var aboveHalfop := UmodeGreaterThan(clientMode, Halfop);
      if change.op.List? && (clientMode == Halfop || aboveHalfop) {
        hasPrivs := true;
      } else if HasPrivsOver(clientMode, targetModeNow) && HasPrivsOver(clientMode, targetModeAfter) {
        hasPrivs := true;
      } else if change.op.Remove? && account == change.arg {
        // one's own grant can always be given up
        hasPrivs := true;
      }
      if !hasPrivs {
        return Err(InsufficientPrivs);
      }
      match change.op {
        case Add =>
          if targetModeNow != targetModeAfter {
            accountToUMode := accountToUMode[change.arg := change.mode];
            return Ok([change]);
          }
          return Ok([]);
        case Remove =>
          if targetModeNow == change.mode {
            accountToUMode := accountToUMode - {change.arg};
            return Ok([change]);
          }
          return Ok([]);
        case List =>
          var grants := ListGrants();
          return Ok(grants);
      }
    }

    method ListGrants() returns (result: seq<ModeChange<string>>)
      ensures forall r :: r in result <==> r == ModeChange(Add, Stored(accountToUMode, r.arg), r.arg) && r.arg in accountToUMode
      ensures |result| == |accountToUMode|
    {
      result := [];
      var todo := accountToUMode.Keys;
      while todo != {}
        invariant todo <= accountToUMode.Keys && |result| + |todo| == |accountToUMode.Keys|
        invariant forall r :: r in result <==>
                    r == ModeChange(Add, Stored(accountToUMode, r.arg), r.arg) && r.arg in accountToUMode && r.arg !in todo
        decreases todo
      {
        var account :| account in todo;
        result := result + [ModeChange(Add, accountToUMode[account], account)];
        todo := todo - {account};
      }
    }

    /** The AMODE command: changes the grant, then the members who are logged into that account. */
    method Amode(client: Client, isOper: bool, accountExists: bool, change: ModeChange<string>)
      modifies this
      ensures accountToUMode == if config.founder != "" && IsGrantChange(change) && (change.op.Add? ==> accountExists) &&
                                   MayChangeGrant(config, old(accountToUMode), client, isOper, change)
                                then ChangeGrant(old(accountToUMode), change) else old(accountToUMode)
      ensures members.Keys == old(members).Keys
      ensures forall c, mode :: c in members ==>
                (mode in members[c] <==>
                   if accountToUMode != old(accountToUMode) && config.account(c) == change.arg && mode == change.mode then change.op.Add?
                   else mode in old(members)[c])
      ensures accountToUMode != old(accountToUMode) ==>
                accountToUMode == if change.op.Add? then old(accountToUMode)[change.arg := change.mode] else old(accountToUMode) - {change.arg}
      ensures !isOper ==> Reaches(config, {client}, old(Quiet()), Quiet())
    {
      ReachesItself(config, {client}, Quiet());
      if config.founder == "" || !IsGrantChange(change) || (change.op.Add? && !accountExists) {
        // the channel is not registered, or there is no such mode or account
        return;
      }
      var result := ProcessAccountToUmodeChange(client, isOper, change);
      if result.Err? || change.op.List? || result.value == [] {
        return;
      }
      if !isOper {
        ReachesNext(config, {client}, old(Quiet()), old(Quiet()), Action.Amode(0, client, isOper, change));
      } else {
        ReachesItself(config, {client}, State(members, accountToUMode, map[0 := Propagating(change)]));
      }
      ApplyToAccount(client, change, if isOper then State(members, accountToUMode, map[0 := Propagating(change)]) else old(Quiet()));
    }

    /** The effect of AMODE on the current members; their grant has changed since `start`. */
    method ApplyToAccount(ghost client: Client, change: ModeChange<string>, ghost start: State)
      requires !change.op.List?
      requires Reaches(config, {client}, start, State(members, accountToUMode, map[0 := Propagating(change)]))
      modifies this`members
      ensures members == AfterAmode(config, old(members), change)
      ensures Reaches(config, {client}, start, Quiet())
    {
      var todo := set c | c in members.Keys && config.account(c) == change.arg;
      while todo != {}
        invariant todo <= members.Keys && forall c :: c in todo ==> config.account(c) == change.arg
        invariant members == AfterAmodeExcept(config, old(members), change, todo)
        invariant Reaches(config, {client}, start, State(members, accountToUMode, map[0 := Propagating(change)]))
        decreases todo
      {
        var member :| member in todo;
        ghost var before := State(members, accountToUMode, map[0 := Propagating(change)]);
        ReachesNext(config, {client}, start, before, ApplyAmode(0, member));
        AmodeOneMore(config, old(members), change, todo, member);
        var applied := ApplyModeToMember(member, change.op, change.mode);
        todo := todo - {member};
      }
      ReachesNext(config, {client}, start, State(members, accountToUMode, map[0 := Propagating(change)]), FinishAmode(0));
      assert map[0 := Propagating(change)] - {0} == map[];
    }

    /** KICK, by a member or with the privilege of an operator. */
    method Kick(client: Client, target: Client, hasPrivs: bool)
      modifies this`members
      ensures var mine := if client in old(members) then Highest(old(members)[client]) else NoMode;
              var theirs := if target in old(members) then Highest(old(members)[target]) else NoMode;
              members ==
                if || hasPrivs
                   || (config.founder != "" && config.account(client) == config.founder)
                   || ((config.founder == "" || config.account(target) != config.founder) &&
                       (|| mine == ChannelFounder
                        || (mine in {ChannelAdmin, ChannelOperator} && Rank(theirs) <= Rank(ChannelOperator))
                        || (mine == Halfop && Rank(theirs) <= Rank(Voice))))
                then old(members) - {target} else old(members)
      ensures members == if MayKick(config, old(members), client, hasPrivs, target) then old(members) - {target} else old(members)
      ensures !hasPrivs ==> Reaches(config, {client}, old(Quiet()), Quiet())
    {
      ReachesItself(config, {client}, Quiet());
      if client in members && target in members {
        PrivsAreRanks(Highest(members[client]), Highest(members[target]));
      }
      var mayKick := hasPrivs;
      if !mayKick {
        mayKick := ClientHasPrivsOver(client, target);
      }
      if !mayKick || target !in members {
        return;
      }
      if !hasPrivs {
        KickIsTwoSteps(config, members, accountToUMode, client, target);
      }
      members := members - {target};
    }

    method ClientHasPrivsOver(client: Client, target: Client) returns (hasPrivs: bool)
      ensures hasPrivs == MayKick(config, members, client, false, target)
    {
      if config.founder != "" && config.founder == config.account(client) {
        // needs no mode
        return true;
      } else if config.founder != "" && config.founder == config.account(target) {
        return false;
      } else if client in members && target in members {
        var mine := HighestChannelUserMode(members[client]);
        var theirs := HighestChannelUserMode(members[target]);
        return HasPrivsOver(mine, theirs);
      }
      return false;
    }

    /** JOIN. Who is let in: the exempt, and those whom no restriction of the channel keeps out. */
    method Join(client: Client, settings: Settings, request: JoinRequest) returns (error: Option<JoinError>)
      modifies this`members
      ensures client in old(members) ==> error == None && members == old(members)
      ensures client !in old(members) ==>
                var account := config.account(client);
                var grant := if account in accountToUMode then accountToUMode[account] else NoMode;
                var exempt := request.isSajoin || request.isInvited || grant !in {NoMode, Voice} ||
                              (config.founder != "" && account == config.founder);
                error == if !exempt && settings.userLimit > 0 && |old(members)| >= settings.userLimit then Some(LimitExceeded)
                         else if !exempt && settings.hasKey && !request.keyMatches then Some(WrongChannelKey)
                         else if !exempt && settings.isInviteOnly && grant != Voice && !request.onInviteList then Some(InviteOnly)
                         else if !exempt && request.onBanList && !request.onExceptList && !request.onInviteList then Some(Banned)
                         else if !exempt && settings.isRegisteredOnly && account == "" && !request.onInviteList then Some(RegisteredOnly)
                         else if !request.hasRoom then Some(CannotAddChannel)
                         else None
      ensures error.Some? ==> members == old(members)
      ensures error.None? && client !in old(members) ==>
                var account := config.account(client);
                var grant := if account in accountToUMode then accountToUMode[account] else NoMode;
                members == if old(members) == map[] && config.founder == "" then map[client := {ChannelOperator}]
                           else old(members)[client := if grant == NoMode then {} else {grant}]
      ensures Reaches(config, {}, old(Quiet()), Quiet())
    {
      ReachesItself(config, {}, Quiet());
      if client in members {
        return None;
      }
      AddToMembersIs(config, members, client, Stored(accountToUMode, config.account(client)));
      var account := config.account(client);
      var persistentMode := if account in accountToUMode then accountToUMode[account] else NoMode;
      error := Refuse(client, settings, request, persistentMode);
      if error.Some? {
        return;
      }
      if !request.hasRoom {
        return Some(CannotAddChannel);
      }
      AddMember(client, persistentMode);
    }

    /** The restrictions. A stored grant of voice exempts from the invitation only, any higher one from all. */
    method Refuse(client: Client, settings: Settings, request: JoinRequest, persistentMode: Mode) returns (error: Option<JoinError>)
      ensures var account := config.account(client);
              var exempt := request.isSajoin || request.isInvited || persistentMode !in {NoMode, Voice} ||
                            (config.founder != "" && account == config.founder);
              error == if !exempt && settings.userLimit > 0 && |members| >= settings.userLimit then Some(LimitExceeded)
                       else if !exempt && settings.hasKey && !request.keyMatches then Some(WrongChannelKey)
                       else if !exempt && settings.isInviteOnly && persistentMode != Voice && !request.onInviteList then Some(InviteOnly)
                       else if !exempt && request.onBanList && !request.onExceptList && !request.onInviteList then Some(Banned)
                       else if !exempt && settings.isRegisteredOnly && account == "" && !request.onInviteList then Some(RegisteredOnly)
                       else None
    {
      var hasPrivs :=
        || request.isSajoin
        || (config.founder != "" && config.founder == config.account(client))
        || (persistentMode != NoMode && persistentMode != Voice)
        || request.isInvited;
      if hasPrivs {
        return None;
      }
      if settings.userLimit != 0 && |members| >= settings.userLimit {
        return Some(LimitExceeded);
      }
      if settings.hasKey && !request.keyMatches {
        return Some(WrongChannelKey);
      }
      if settings.isInviteOnly && persistentMode == NoMode && !request.onInviteList {
        return Some(InviteOnly);
      }
      if request.onBanList && !request.onExceptList && !request.onInviteList {
        return Some(Banned);
      }
      if config.account(client) == "" && settings.isRegisteredOnly && !request.onInviteList {
        return Some(RegisteredOnly);
      }
      return None;
    }

    /** The part of JOIN that makes the client a member. */
    method AddMember(client: Client, persistentMode: Mode)
      requires client !in members && persistentMode == Stored(accountToUMode, config.account(client))
      modifies this`members
      ensures members == AddToMembers(config, old(members), client, persistentMode)
      ensures Reaches(config, {}, old(Quiet()), Quiet())
    {
      members := members[client := {}];
      var firstJoin := |members| == 1;
      FirstJoin(old(members), client);
      var givenMode := if firstJoin && config.founder == "" then ChannelOperator else persistentMode;
      if givenMode != NoMode {
        members := members[client := {givenMode}];
      }
      JoinIsTwoSteps(config, old(members), accountToUMode, client);
    }

    /** CS OP, of oneself or of somebody else. */
    method CsOp(client: Client, target: Client) returns (success: bool)
      modifies this`members
      ensures var account := config.account(client);
              var grant := if account in accountToUMode then accountToUMode[account] else NoMode;
              var isFounder := config.founder != "" && account == config.founder;
              var given := if isFounder && target == client then ChannelFounder
                           else if isFounder then ChannelOperator
                           else if account != "" && target == client then grant
                           else NoMode;
              && (success <==> given != NoMode)
              && (account != "" ==> given == OpMode(config, accountToUMode, client, target))
              && members == if success && target in old(members) then old(members)[target := old(members)[target] + {given}]
                            else old(members)
      ensures config.account(client) != config.founder ==> Reaches(config, {}, old(Quiet()), Quiet())
    {
      ReachesItself(config, {}, Quiet());
      var clientAccount := config.account(client);
      if clientAccount == "" {
        return false;
      }
      var givenMode;
      if target == client {
        if clientAccount == config.founder {
          givenMode := ChannelFounder;
        } else {
          givenMode := if clientAccount in accountToUMode then accountToUMode[clientAccount] else NoMode;
          if givenMode == NoMode {
            return false;
          }
          OpIsTwoSteps(config, members, accountToUMode, client);
        }
      } else {
        if clientAccount != config.founder {
          return false;
        }
        givenMode := ChannelOperator;
      }
      var applied := ApplyModeToMember(target, Add, givenMode);
      success := true;
    }
  }

  lemma {:induction false} NextChange(config: Config, members: Members, actor: Client, isSamode: bool, changes: seq<ModeChange<Client>>, i: nat,
                   applied: seq<ModeChange<Client>>)
    requires i < |changes|
    ensures var after := AfterChange(config, members, actor, isSamode, changes[i]);
            && AfterChanges(config, members, actor, isSamode, changes[i..]) == AfterChanges(config, after, actor, isSamode, changes[i + 1..])
            && applied + Applied(config, members, actor, isSamode, changes[i..]) ==
                 (if after != members then applied + [changes[i]] else applied) + Applied(config, after, actor, isSamode, changes[i + 1..])
  {
    assert changes[i..][0] == changes[i] && changes[i..][1..] == changes[i + 1..];
    var after := AfterChange(config, members, actor, isSamode, changes[i]);
    var rest := Applied(config, after, actor, isSamode, changes[i + 1..]);
    assert applied + ([changes[i]] + rest) == applied + [changes[i]] + rest && applied + ([] + rest) == applied + rest;
  }

  ghost function AfterAmodeExcept(config: Config, members: Members, grant: ModeChange<string>, todo: set<Client>): Members {
    map c | c in members :: if c in todo then members[c] else AfterAmode(config, members, grant)[c]
  }

  lemma {:induction false} AmodeOneMore(config: Config, members: Members, grant: ModeChange<string>, todo: set<Client>, member: Client)
    requires member in todo && member in members && config.account(member) == grant.arg
    ensures ChangeMember(AfterAmodeExcept(config, members, grant, todo), member, grant.op, grant.mode) ==
            AfterAmodeExcept(config, members, grant, todo - {member})
  {
  }

  lemma {:induction false} FirstJoin(members: Members, client: Client)
    requires client !in members
    ensures |members[client := {}]| == 1 <==> members.Keys + {client} == {client}
  {
    assert members[client := {}].Keys == members.Keys + {client};
    if |members[client := {}].Keys| == 1 {
      var x :| members[client := {}].Keys == {x};
      assert client == x;
    }
  }

  lemma {:induction false} ModeIsTwoSteps(config: Config, start: State, members: Members, stored: Grants, actor: Client, change: ModeChange<Client>)
    requires Reaches(config, {actor}, start, State(members, stored, map[])) && change.mode != NoMode
    requires MayChange(config, members, actor, false, change) && !change.op.List?
    ensures Reaches(config, {actor}, start, State(AfterChange(config, members, actor, false, change), stored, map[]))
  {
    var quiet := State(members, stored, map[]);
    var checked := State(members, stored, map[0 := Changing(change)]);
    assert Next(config, quiet, CheckMode(0, actor, false, change)) == checked;
    ReachesNext(config, {actor}, start, quiet, CheckMode(0, actor, false, change));
    ReachesNext(config, {actor}, start, checked, ApplyMode(0));
    assert map[0 := Changing(change)] - {0} == map[];
  }

  lemma {:induction false} KickIsTwoSteps(config: Config, members: Members, stored: Grants, actor: Client, target: Client)
    requires MayKick(config, members, actor, false, target) && target in members
    ensures Reaches(config, {actor}, State(members, stored, map[]), State(members - {target}, stored, map[]))
  {
    var quiet := State(members, stored, map[]);
    var checked := State(members, stored, map[0 := Kicking(target)]);
    ReachesItself(config, {actor}, quiet);
    assert Next(config, quiet, CheckKick(0, actor, false, target)) == checked;
    ReachesNext(config, {actor}, quiet, quiet, CheckKick(0, actor, false, target));
    ReachesNext(config, {actor}, quiet, checked, FinishKick(0));
    assert map[0 := Kicking(target)] - {0} == map[];
  }

  lemma {:induction false} JoinIsTwoSteps(config: Config, members: Members, stored: Grants, client: Client)
    requires client !in members
    ensures var mode := Stored(stored, config.account(client));
            Reaches(config, {}, State(members, stored, map[]), State(AddToMembers(config, members, client, mode), stored, map[]))
  {
    var quiet := State(members, stored, map[]);
    var pc := Joining(client, Stored(stored, config.account(client)));
    ReachesItself(config, {}, quiet);
    assert Next(config, quiet, StartJoin(0, client)) == State(members, stored, map[0 := pc]);
    ReachesNext(config, {}, quiet, quiet, StartJoin(0, client));
    ReachesNext(config, {}, quiet, State(members, stored, map[0 := pc]), AddMember(0));
    assert map[0 := pc] - {0} == map[];
  }

  lemma {:induction false} OpIsTwoSteps(config: Config, members: Members, stored: Grants, client: Client)
    requires config.account(client) != "" && config.account(client) != config.founder
    requires Stored(stored, config.account(client)) != NoMode
    ensures var mode := Stored(stored, config.account(client));
            Reaches(config, {}, State(members, stored, map[]), State(ChangeMember(members, client, Add, mode), stored, map[]))
  {
    var quiet := State(members, stored, map[]);
    var pc := Changing(ModeChange(Add, Stored(stored, config.account(client)), client));
    ReachesItself(config, {}, quiet);
    assert Next(config, quiet, Action.CsOp(0, client, client)) == State(members, stored, map[0 := pc]);
    ReachesNext(config, {}, quiet, quiet, Action.CsOp(0, client, client));
    ReachesNext(config, {}, quiet, State(members, stored, map[0 := pc]), ApplyMode(0));
    assert map[0 := pc] - {0} == map[];
  }
}
