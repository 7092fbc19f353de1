/** The index of clients by nickname and by skeleton (irc/client_lookup_set.go) and the end of a client's
    life (irc/client.go). Each method is one critical section, so a sequence of calls is an interleaving. */
module ClientIndex {
  import opened Common

  type ClientId = nat

  /** Before registration a client has the nickname "*" and no skeleton; `account` is "" if it is not logged
      in. */
  datatype Client = Client(nick: string, nickCasefolded: string, skeleton: string, account: string, registered: bool, destroyed: bool)

  datatype Error = NicknameInUse | Noop | NicknameReserved | ClientDestroyed | NickMissing

  datatype Outcome = NickSet | Reattached | DryRun | Failed(error: Error)

  type Index = map<string, ClientId>

  predicate IsPlaceholder(cfnick: string) {
    cfnick == "*" || cfnick == ""
  }

  /** Free for the client: nobody else is there. */
  predicate IsFree(index: Index, key: string, client: ClientId) {
    key !in index || index[key] == client
  }

  function Without(index: Index, key: string, client: ClientId): Index {
    if key in index && index[key] == client then index - {key} else index
  }

  datatype State = State(byNick: Index, bySkeleton: Index, clients: map<ClientId, Client>, gone: set<ClientId>)

  /** Whether the client is in both indices, under its current nickname and skeleton. */
  ghost predicate Listed(s: State, c: ClientId) {
    && c in s.clients
    && s.clients[c].nickCasefolded in s.byNick && s.byNick[s.clients[c].nickCasefolded] == c
    && s.clients[c].skeleton in s.bySkeleton && s.bySkeleton[s.clients[c].skeleton] == c
  }

  /** Both indices hold the same clients, each once and under its own current names: those that have
      registered and have not been removed. */
  ghost predicate Inv(s: State) {
    && (forall cf :: cf in s.byNick ==> Listed(s, s.byNick[cf]) && s.clients[s.byNick[cf]].nickCasefolded == cf)
    && (forall sk :: sk in s.bySkeleton ==> Listed(s, s.bySkeleton[sk]) && s.clients[s.bySkeleton[sk]].skeleton == sk)
    && (forall c :: c in s.clients ==> (Listed(s, c) <==> s.clients[c].registered && c !in s.gone))
    && (forall c :: c in s.clients ==> (IsPlaceholder(s.clients[c].nickCasefolded) <==> !s.clients[c].registered))
    && (forall c :: c in s.gone ==> c in s.clients && s.clients[c].destroyed)
  }

  /** The indices after a client has moved from its former names to new ones that are free for it. */
  function Renamed(s: State, client: ClientId, nick: string, cfnick: string, skeleton: string): State
    requires client in s.clients
  {
    var former := s.clients[client];
    var byNick := if IsPlaceholder(former.nickCasefolded) then s.byNick else Without(s.byNick, former.nickCasefolded, client);
    var bySkeleton := if IsPlaceholder(former.nickCasefolded) then s.bySkeleton else Without(s.bySkeleton, former.skeleton, client);
    s.(byNick := byNick[cfnick := client], bySkeleton := bySkeleton[skeleton := client],
       clients := s.clients[client := Client(nick, cfnick, skeleton, former.account, true, false)])
  }

  lemma {:induction false} RenamedIndex(s: State, client: ClientId, nick: string, cfnick: string, skeleton: string, c: ClientId)
    requires Inv(s) && client in s.clients && !s.clients[client].destroyed && !IsPlaceholder(cfnick)
    requires IsFree(s.byNick, cfnick, client) && IsFree(s.bySkeleton, skeleton, client)
    ensures var n := Renamed(s, client, nick, cfnick, skeleton);
            Listed(n, c) == (c == client || Listed(s, c))
  {
  }

  lemma {:induction false} RenamedKeepsInv(s: State, client: ClientId, nick: string, cfnick: string, skeleton: string)
    requires Inv(s) && client in s.clients && !s.clients[client].destroyed && !IsPlaceholder(cfnick)
    requires IsFree(s.byNick, cfnick, client) && IsFree(s.bySkeleton, skeleton, client)
    ensures Inv(Renamed(s, client, nick, cfnick, skeleton))
  {
    var n := Renamed(s, client, nick, cfnick, skeleton);
    forall c ensures Listed(n, c) == (c == client || Listed(s, c)) {
      RenamedIndex(s, client, nick, cfnick, skeleton, c);
    }
  }

  class ClientManager {
    var byNick: Index
    var bySkeleton: Index
    var clients: map<ClientId, Client>     // the Client objects, by identity
    ghost var gone: set<ClientId>          // clients whose destroy has called Remove

    ghost function Now(): State
      reads this
    {
      State(byNick, bySkeleton, clients, gone)
    }

    ghost predicate IsIndexed(c: ClientId)
      reads this
    {
      Listed(Now(), c)
    }

    ghost predicate Valid()
      reads this
    {
      Inv(Now())
    }

    constructor ()
      ensures Valid() && clients == map[] && gone == {}
    {
      byNick, bySkeleton, clients, gone := map[], map[], map[], {};
    }

    method NewClient(client: ClientId, account: string)
      requires Valid() && client !in clients
      modifies this`clients
      ensures Valid() && clients == old(clients)[client := Client("*", "*", "", account, false, false)]
    {
      clients := clients[client := Client("*", "*", "", account, false, false)];
    }

    /** Get, with the casefolded name. */
    method Get(casefoldedName: Option<string>) returns (client: Option<ClientId>)
      requires Valid()
      ensures client.Some? ==> IsIndexed(client.value) && casefoldedName == Some(clients[client.value].nickCasefolded)
      ensures client.None? ==> forall c :: c in clients && clients[c].registered && c !in gone ==> casefoldedName != Some(clients[c].nickCasefolded)
    {
      if casefoldedName.Some? && casefoldedName.value in byNick {
        return Some(byNick[casefoldedName.value]);
      }
      client := None;
      forall c | c in clients && clients[c].registered && c !in gone ensures casefoldedName != Some(clients[c].nickCasefolded) {
        assert IsIndexed(c);
      }
    }

    /** Takes the client out of both indices, if it is there under these names. */
    method RemoveInternal(client: ClientId, oldcfnick: string, oldskeleton: string) returns (error: Option<Error>)
      modifies this`byNick, this`bySkeleton
      ensures byNick == if IsPlaceholder(oldcfnick) then old(byNick) else Without(old(byNick), oldcfnick, client)
      ensures bySkeleton == if IsPlaceholder(oldcfnick) then old(bySkeleton) else Without(old(bySkeleton), oldskeleton, client)
      ensures error == None <==>
                && !IsPlaceholder(oldcfnick) && oldcfnick in old(byNick) && old(byNick)[oldcfnick] == client
                && oldskeleton in old(bySkeleton) && old(bySkeleton)[oldskeleton] == client
    {
      if IsPlaceholder(oldcfnick) {
        return Some(NickMissing);
      }
      error := None;
      if oldcfnick in byNick && byNick[oldcfnick] == client {
        byNick := byNick - {oldcfnick};
      } else {
        error := Some(NickMissing);
      }
      if oldskeleton in bySkeleton && bySkeleton[oldskeleton] == client {
        bySkeleton := bySkeleton - {oldskeleton};
      } else {
        error := Some(NickMissing);
      }
    }

    /** The section of destroy that decides who destroys the client: the first caller that leaves it without
        sessions, unless it is always-on. */
    method MarkDestroyed(client: ClientId, remainingSessions: nat, alwaysOn: bool) returns (shouldDestroy: bool)
      requires Valid() && client in clients
      modifies this`clients
      ensures Valid() && (shouldDestroy <==> !old(clients)[client].destroyed && remainingSessions == 0 && !alwaysOn)
      ensures clients == if shouldDestroy then old(clients)[client := old(clients)[client].(destroyed := true)] else old(clients)
    {
      shouldDestroy := !clients[client].destroyed && remainingSessions == 0 && !alwaysOn;
      if shouldDestroy {
        clients := clients[client := clients[client].(destroyed := true)];
      }
    }

    /** Remove, which destroy calls once for the client. */
    method Remove(client: ClientId) returns (error: Option<Error>)
      requires Valid() && client in clients && clients[client].destroyed
      modifies this`byNick, this`bySkeleton, this`gone
      ensures Valid() && gone == old(gone) + {client} && !IsIndexed(client)
      ensures forall c :: c != client ==> IsIndexed(c) == old(IsIndexed(c))
      ensures error == None <==> old(IsIndexed(client))
    {
      ghost var wasIndexed := IsIndexed(client);
      error := RemoveInternal(client, clients[client].nickCasefolded, clients[client].skeleton);
      gone := gone + {client};
      forall c | c != client ensures IsIndexed(c) == old(IsIndexed(c)) { }
    }

    /** SetNick of the client object: false if it has been destroyed. */
    method SetClientNick(client: ClientId, nick: string, nickCasefolded: string, skeleton: string) returns (success: bool)
      requires client in clients
      modifies this`clients
      ensures success <==> !old(clients)[client].destroyed
      ensures clients == if success then old(clients)[client := Client(nick, nickCasefolded, skeleton, old(clients)[client].account, true, false)]
                         else old(clients)
    {
      if clients[client].destroyed {
        return false;
      }
      clients := clients[client := Client(nick, nickCasefolded, skeleton, clients[client].account, true, clients[client].destroyed)];
      return true;
    }

    /** The critical section of SetNick. `bouncerAllowed` is what the configuration and the account say about
        several sessions for one client; AddSession refuses a client that has been destroyed. */
    method SetNick(client: ClientId, newNick: string, newCfNick: string, newSkeleton: string,
                   nickIsReserved: bool, dryRun: bool, bouncerAllowed: bool, hasSession: bool) returns (outcome: Outcome)
      requires Valid() && client in clients && !IsPlaceholder(newCfNick)
      modifies this`byNick, this`bySkeleton, this`clients
      ensures Valid()
      ensures outcome.NickSet? <==>
                && IsFree(old(byNick), newCfNick, client) && IsFree(old(bySkeleton), newSkeleton, client)
                && !(newCfNick in old(byNick) && old(clients)[client].nick == newNick)
                && !nickIsReserved && !dryRun && !old(clients)[client].destroyed
      ensures !outcome.NickSet? ==> byNick == old(byNick) && bySkeleton == old(bySkeleton) && clients == old(clients)
      ensures outcome.NickSet? ==>
                && IsIndexed(client) && client !in gone
                && clients == old(clients)[client := Client(newNick, newCfNick, newSkeleton, old(clients)[client].account, true, false)]
                && forall c :: c != client ==> IsIndexed(c) == old(IsIndexed(c))
      ensures var me := old(clients)[client];
              var taken := newCfNick in old(byNick) && old(byNick)[newCfNick] != client;
              outcome == if taken then
                           (var other := old(clients)[old(byNick)[newCfNick]];
                            if !me.registered && bouncerAllowed && !dryRun && hasSession &&
                               me.account != "" && me.account == other.account && !other.destroyed
                            then Reattached else Failed(NicknameInUse))
                         else if newCfNick in old(byNick) && me.nick == newNick then Failed(Noop)
                         else if newSkeleton in old(bySkeleton) && old(bySkeleton)[newSkeleton] != client then Failed(NicknameInUse)
                         else if nickIsReserved then Failed(NicknameReserved)
                         else if dryRun then DryRun
                         else if me.destroyed then Failed(ClientDestroyed)
                         else NickSet
    {
      if newCfNick in byNick && byNick[newCfNick] != client {
        // the nickname of another client: reattach to it, or give up
        var current := byNick[newCfNick];
        if clients[client].registered || !bouncerAllowed || clients[client].account == "" ||
           clients[client].account != clients[current].account || dryRun || !hasSession {
          return Failed(NicknameInUse);
        }
        var reattachSuccessful := !clients[current].destroyed;
        return if reattachSuccessful then Reattached else Failed(NicknameInUse);
      } else if newCfNick in byNick && clients[client].nick == newNick {
        return Failed(Noop);
      }
      // the same for the skeleton, which cannot be shared
      if newSkeleton in bySkeleton && bySkeleton[newSkeleton] != client {
        return Failed(NicknameInUse);
      }
      if nickIsReserved {
        return Failed(NicknameReserved);
      }
      if dryRun {
        return DryRun;
      }
      var success := Rename(client, newNick, newCfNick, newSkeleton);
      return if success then NickSet else Failed(ClientDestroyed);
    }

    /** The end of SetNick: changes the client's names and moves its entries, unless it was destroyed. */
    method Rename(client: ClientId, newNick: string, newCfNick: string, newSkeleton: string) returns (success: bool)
      requires Valid() && client in clients && !IsPlaceholder(newCfNick)
      requires IsFree(byNick, newCfNick, client) && IsFree(bySkeleton, newSkeleton, client)
      modifies this`byNick, this`bySkeleton, this`clients
      ensures Valid()
      ensures success <==> !old(clients)[client].destroyed
      ensures !success ==> byNick == old(byNick) && bySkeleton == old(bySkeleton) && clients == old(clients)
      ensures success ==> clients == old(clients)[client := Client(newNick, newCfNick, newSkeleton, old(clients)[client].account, true, false)]
      ensures success ==> client !in gone && forall c :: IsIndexed(c) == (c == client || old(IsIndexed(c)))
    {
      ghost var before := Now();
      var formercfnick, formerskeleton := clients[client].nickCasefolded, clients[client].skeleton;
      var changeSuccess := SetClientNick(client, newNick, newCfNick, newSkeleton);
      if !changeSuccess {
        return false;
      }
      var error := RemoveInternal(client, formercfnick, formerskeleton);
      byNick := byNick[newCfNick := client];
      bySkeleton := bySkeleton[newSkeleton := client];
      assert Now() == Renamed(before, client, newNick, newCfNick, newSkeleton);
      RenamedKeepsInv(before, client, newNick, newCfNick, newSkeleton);
      forall c ensures Listed(Now(), c) == (c == client || Listed(before, c)) {
        RenamedIndex(before, client, newNick, newCfNick, newSkeleton, c);
      }
      return true;
    }
  }
}
