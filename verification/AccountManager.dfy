/** AccountManager as it updates the nickname cache and the datastore (irc/accounts.go). The methods leave
    the state that the functions of the same name in NickIndex and NickUnregister describe. */
module AccountManager {
  import opened Common
  import opened NickIndex
  import NickUnregister

  /** The keys of the items that have been visited. */
  ghost function Restricted(key: Keys, done: set<Item>): Keys {
    item => if item in done then key(item) else None
  }

  lemma {:induction false} PutInIndex(index: map<string, string>, key: Keys, done: set<Item>, item: Item)
    requires OwnedOnce(key) && IsIndexOf(index, Restricted(key, done)) && key(item).Some?
    ensures IsIndexOf(index[key(item).value := item.account], Restricted(key, done + {item}))
  {
    var before, after, k := Restricted(key, done), Restricted(key, done + {item}), key(item).value;
    forall c | c in index[k := item.account] ensures exists other :: after(other) == Some(c) {
      if c == k {
        assert after(item) == Some(c);
      } else {
        var other :| before(other) == Some(c);
        assert after(other) == Some(c);
      }
    }
  }

  lemma {:induction false} NothingToPut(index: map<string, string>, key: Keys, done: set<Item>, item: Item)
    requires IsIndexOf(index, Restricted(key, done)) && key(item).None?
    ensures IsIndexOf(index, Restricted(key, done + {item}))
  {
    var before, after := Restricted(key, done), Restricted(key, done + {item});
    assert forall other :: after(other) == before(other);
    forall c | c in index ensures exists other :: after(other) == Some(c) {
      var other :| before(other) == Some(c);
      assert after(other) == Some(c);
    }
  }

  lemma {:induction false} AllVisited(index: map<string, string>, key: Keys, done: set<Item>)
    requires IsIndexOf(index, Restricted(key, done)) && forall item :: key(item).Some? ==> item in done
    ensures IsIndexOf(index, key)
  {
    forall item ensures key(item) == Restricted(key, done)(item) { }
    forall c | c in index ensures exists item :: key(item) == Some(c) {
      var item :| Restricted(key, done)(item) == Some(c);
      assert key(item) == Some(c);
    }
  }

  class AccountManager {
    const config: Config
    // the datastore
    var accounts: map<string, Account>
    var names: map<string, string>
    var nicks: map<string, seq<string>>
    var unregistered: map<string, string>
    // the cache
    var nickToAccount: map<string, string>
    var skeletonToAccount: map<string, string>

    ghost function Now(): State
      reads this
    {
      State(accounts, names, nicks, unregistered, nickToAccount, skeletonToAccount)
    }

    /** The index under construction holds the items of `done`. */
    ghost predicate Building(byNick: map<string, string>, bySkeleton: map<string, string>, done: set<Item>)
      reads this
    {
      && (forall item :: item in done ==> Holds(config, Now(), item))
      && IsIndexOf(byNick, Restricted(Cfs(config, Now()), done)) && IsIndexOf(bySkeleton, Restricted(Sks(config, Now()), done))
    }

    lemma {:induction false} Put(byNick: map<string, string>, bySkeleton: map<string, string>, done: set<Item>, item: Item)
      requires Building(byNick, bySkeleton, done) && Holds(config, Now(), item)
      requires OwnedOnce(Cfs(config, Now())) && OwnedOnce(Sks(config, Now()))
      ensures var sk := Sk(config, Now(), item);
              Building(byNick[Cf(config, Now(), item).value := item.account],
                       if sk.Some? then bySkeleton[sk.value := item.account] else bySkeleton, done + {item})
    {
      PutInIndex(byNick, Cfs(config, Now()), done, item);
      if Sk(config, Now(), item).Some? {
        PutInIndex(bySkeleton, Sks(config, Now()), done, item);
      } else {
        NothingToPut(bySkeleton, Sks(config, Now()), done, item);
      }
    }

    constructor (config: Config)
      ensures this.config == config && Inv(config, Now())
      ensures Now() == State(map[], map[], map[], map[], map[], map[])
    {
      this.config := config;
      accounts, names, nicks, unregistered := map[], map[], map[], map[];
      nickToAccount, skeletonToAccount := map[], map[];
    }

    /** buildNickToAccountIndex: reads the datastore in any order. */
    method BuildNickToAccountIndex()
      requires OwnedOnce(Cfs(config, Now())) && OwnedOnce(Sks(config, Now()))
      modifies this`nickToAccount, this`skeletonToAccount
      ensures Synced(config, Now())
    {
      ghost var start := Now();
      var byNick, bySkeleton := ReadReservedNicks();
      nickToAccount, skeletonToAccount := byNick, bySkeleton;
      SameKeys(start, Now(), byNick, bySkeleton);
    }

    lemma {:induction false} SameKeys(s: State, s': State, byNick: map<string, string>, bySkeleton: map<string, string>)
      requires s'.accounts == s.accounts && s'.names == s.names && s'.nicks == s.nicks && s'.unregistered == s.unregistered
      requires IsIndexOf(byNick, Cfs(config, s)) && IsIndexOf(bySkeleton, Sks(config, s))
      ensures IsIndexOf(byNick, Cfs(config, s')) && IsIndexOf(bySkeleton, Sks(config, s'))
    {
      forall item ensures Cfs(config, s')(item) == Cfs(config, s)(item) && Sks(config, s')(item) == Sks(config, s)(item) {
        assert Holds(config, s', item) == Holds(config, s, item);
      }
    }

    method ReadReservedNicks() returns (byNick: map<string, string>, bySkeleton: map<string, string>)
      requires OwnedOnce(Cfs(config, Now())) && OwnedOnce(Sks(config, Now()))
      ensures IsIndexOf(byNick, Cfs(config, Now())) && IsIndexOf(bySkeleton, Sks(config, Now()))
    {
      ghost var done;
      byNick, bySkeleton, done := BuildFromAccounts();
      if config.strict {
        byNick, bySkeleton, done := BuildFromUnregistered(byNick, bySkeleton, done);
      }
      AllVisited(byNick, Cfs(config, Now()), done);
      AllVisited(bySkeleton, Sks(config, Now()), done);
    }

    method BuildFromAccounts() returns (byNick: map<string, string>, bySkeleton: map<string, string>, ghost done: set<Item>)
      requires OwnedOnce(Cfs(config, Now())) && OwnedOnce(Sks(config, Now()))
      ensures Building(byNick, bySkeleton, done)
      ensures forall item :: Holds(config, Now(), item) && !item.Former? ==> item in done
    {
      byNick, bySkeleton, done := map[], map[], {};
      var todo := accounts.Keys;
      while todo != {}
        invariant todo <= accounts.Keys && Building(byNick, bySkeleton, done)
        invariant forall item :: Holds(config, Now(), item) && !item.Former? && item.account !in todo ==> item in done
        decreases todo
      {
        var account :| account in todo;
        if accounts[account].verified {
          Put(byNick, bySkeleton, done, Primary(account));
          byNick := byNick[account := account];
          // a missing name is only logged
          if account in names {
            bySkeleton := bySkeleton[OrEmpty(config.fold.skeleton(names[account])) := account];
          }
          done := done + {Primary(account)};
        }
        byNick, bySkeleton, done := BuildFromNicks(account, byNick, bySkeleton, done);
        todo := todo - {account};
      }
    }

    /** The additional nicks of one account. */
    method BuildFromNicks(account: string, byNick0: map<string, string>, bySkeleton0: map<string, string>, ghost done0: set<Item>)
      returns (byNick: map<string, string>, bySkeleton: map<string, string>, ghost done: set<Item>)
      requires OwnedOnce(Cfs(config, Now())) && OwnedOnce(Sks(config, Now()))
      requires account in accounts && Building(byNick0, bySkeleton0, done0)
      ensures Building(byNick, bySkeleton, done) && done0 <= done
      ensures forall nick :: nick in NicksOf(Now(), account) ==> Additional(account, nick) in done
    {
      byNick, bySkeleton, done := byNick0, bySkeleton0, done0;
      var additionalNicks := if account in nicks then nicks[account] else [];
      for i := 0 to |additionalNicks|
        invariant Building(byNick, bySkeleton, done) && done0 <= done
        invariant forall nick :: nick in additionalNicks[..i] ==> Additional(account, nick) in done
      {
        var nick := additionalNicks[i];
        Put(byNick, bySkeleton, done, Additional(account, nick));
        byNick := byNick[OrEmpty(config.fold.casefold(nick)) := account];
        bySkeleton := bySkeleton[OrEmpty(config.fold.skeleton(nick)) := account];
        done := done + {Additional(account, nick)};
      }
      assert additionalNicks[..|additionalNicks|] == additionalNicks;
    }

    /** Under strict enforcement: the names of unregistered accounts. */
    method BuildFromUnregistered(byNick0: map<string, string>, bySkeleton0: map<string, string>, ghost done0: set<Item>)
      returns (byNick: map<string, string>, bySkeleton: map<string, string>, ghost done: set<Item>)
      requires OwnedOnce(Cfs(config, Now())) && OwnedOnce(Sks(config, Now()))
      requires config.strict && Building(byNick0, bySkeleton0, done0)
      ensures Building(byNick, bySkeleton, done) && done0 <= done
      ensures forall account :: account in unregistered ==> Former(account) in done
    {
      byNick, bySkeleton, done := byNick0, bySkeleton0, done0;
      var todo := unregistered.Keys;
      while todo != {}
        invariant todo <= unregistered.Keys && Building(byNick, bySkeleton, done) && done0 <= done
        invariant forall account :: account in unregistered && account !in todo ==> Former(account) in done
        decreases todo
      {
        var account :| account in todo;
        Put(byNick, bySkeleton, done, Former(account));
        byNick := byNick[account := account];
        bySkeleton := bySkeleton[OrEmpty(config.fold.skeleton(unregistered[account])) := account];
        done := done + {Former(account)};
        todo := todo - {account};
      }
    }

    /** Finds the owner of a nickname: that of the nick, else that of its skeleton. */
    method NickToAccount(nick: string) returns (account: string)
      requires Inv(config, Now())
      ensures account == NickIndex.NickToAccount(config, Now(), nick)
      ensures var cfnick, skeleton := config.fold.casefold(nick), config.fold.skeleton(nick);
              if cfnick.None? || skeleton.None? then account == ""
              else
                && (account != "" <==> IsReserved(config, Now(), cfnick.value, skeleton.value))
                && (forall item :: Cf(config, Now(), item) == cfnick ==> account == item.account)
                && (forall item :: Sk(config, Now(), item) == skeleton && (forall other :: Cf(config, Now(), other) != cfnick) ==>
                      account == item.account)
    {
      NickToAccountFindsOwner(config, Now(), nick);
      var cfnick, skeleton := config.fold.casefold(nick), config.fold.skeleton(nick);
      if cfnick.None? || skeleton.None? {
        return "";
      }
      account := Lookup(nickToAccount, cfnick.value);
      if account != "" {
        return account;
      }
      return Lookup(skeletonToAccount, skeleton.value);
    }

    method Register(account: string, request: Request) returns (error: Option<Error>)
      requires Inv(config, Now()) && config.fold.casefold(account) != Some("")
      modifies this`accounts, this`names
      ensures (Now(), error) == NickIndex.Register(config, old(Now()), account, request) && Inv(config, Now())
    {
      RegisterKeepsInv(config, Now(), account, request);
      var casefoldedAccount, skeleton := config.fold.casefold(account), config.fold.skeleton(account);
      if casefoldedAccount.None? || skeleton.None? || IsPlaceholder(account) {
        return Some(AccountCreation);
      }
      if request.isRestricted {
        return Some(AlreadyRegistered);
      }
      if !request.isAllowed {
        return Some(FeatureDisabled);
      }
      if request.isLoggedIn {
        return Some(AlreadyLoggedIn);
      }
      if request.isThrottled {
        return Some(LimitExceeded);
      }
      if !request.mayHoldNick {
        return Some(MustHoldNick);
      }
      if request.isGuestNick {
        return Some(AlreadyRegistered);
      }
      if !request.isPassphraseFine {
        return Some(BadPassphrase);
      }
      // the cache also has the additional nicks of others
      var owner := NickToAccount(account);
      if owner != "" {
        return Some(NameReserved);
      }
      if casefoldedAccount.value in unregistered {
        return Some(AlreadyUnregistered);
      }
      if casefoldedAccount.value in accounts {
        return Some(AlreadyRegistered);
      }
      accounts := accounts[casefoldedAccount.value := Account(false, true)];
      names := names[casefoldedAccount.value := account];
      return None;
    }

    /** `renamed` is what a Rename stores meanwhile, which does not take the mutex. */
    method Verify(account: string, mayVerify: bool, renamed: Option<string>) returns (error: Option<Error>)
      requires Inv(config, Now())
      modifies this`accounts, this`names, this`nickToAccount, this`skeletonToAccount
      ensures (Now(), error) == NickIndex.Verify(config, old(Now()), account, mayVerify, renamed)
      ensures renamed.None? ==> Inv(config, Now()) && (error.Some? ==> Now() == old(Now()))
      ensures error.None? ==> mayVerify && config.fold.casefold(account).Some?
      ensures forall cf :: cf in accounts ==>
                cf in old(accounts) &&
                (accounts[cf].verified != old(accounts)[cf].verified <==> error.None? && config.fold.casefold(account) == Some(cf))
    {
      VerifyOutcome(config, Now(), account, mayVerify, renamed);
      ReadNameFinds(config, Now(), account);
      var read := ReadName(account);
      if read.Err? {
        return Some(read.error);
      }
      if renamed.Some? {
        StoreName(read.value.cf, renamed.value);
      } else {
        CommitIsRightExactly(config, Now(), read.value, mayVerify);
      }
      error := Commit(read.value, mayVerify);
    }

    /** The part of Verify before its transaction. */
    method ReadName(account: string) returns (result: Result<Verification, Error>)
      ensures result == NickIndex.ReadName(config, Now(), account)
    {
      var casefoldedAccount := config.fold.casefold(account);
      if casefoldedAccount.None? || IsPlaceholder(account) {
        return Err(VerificationFailed);
      }
      var cf := casefoldedAccount.value;
      if cf !in names {
        return Err(DoesNotExist);
      }
      var skeleton := config.fold.skeleton(names[cf]);
      if skeleton.None? {
        return Err(DoesNotExist);
      }
      // since the registration another account with this skeleton may have been verified
      if skeleton.value in skeletonToAccount {
        return Err(ConfusableIdentifier);
      }
      return Ok(Verification(cf, skeleton.value));
    }

    /** The transaction of Verify, and what it does to the cache. */
    method Commit(v: Verification, mayVerify: bool) returns (error: Option<Error>)
      modifies this`accounts, this`nickToAccount, this`skeletonToAccount
      ensures (Now(), error) == NickIndex.Commit(old(Now()), v, mayVerify)
    {
      if v.cf !in accounts {
        return Some(DoesNotExist);
      }
      if accounts[v.cf].verified {
        return Some(AlreadyVerified);
      }
      if !mayVerify {
        return Some(InvalidCode);
      }
      // everything is stored again, without a time limit
      accounts := accounts[v.cf := Account(true, false)];
      nickToAccount := nickToAccount[v.cf := v.cf];
      skeletonToAccount := skeletonToAccount[v.skeleton := v.cf];
      return None;
    }

    /** The transaction of Rename. */
    method StoreName(cf: string, newName: string)
      modifies this`accounts, this`names
      ensures Now() == NickIndex.StoreName(old(Now()), cf, newName)
    {
      names := names[cf := newName];
      if cf in accounts {
        accounts := accounts[cf := accounts[cf].(nameExpires := false)];
      }
    }

    /** Unregister, as far as names are concerned. */
    method Unregister(cf: string, erase: bool)
      modifies this
      ensures Now() == NickUnregister.Unregister(config, old(Now()), cf, erase)
    {
      var accountName := Lookup(names, cf);
      if accountName == "" {
        accountName := Lookup(unregistered, cf);
      }
      var additionalNicks := if cf in nicks then nicks[cf] else [];
      var keepProtections := DeleteFromStore(cf, erase, accountName);
      DeleteFromCache(cf, OrEmpty(config.fold.skeleton(accountName)), additionalNicks, keepProtections && config.strict);
    }

    /** The transaction of Unregister. */
    method DeleteFromStore(cf: string, erase: bool, accountName: string) returns (keepProtections: bool)
      modifies this`accounts, this`names, this`nicks, this`unregistered
      ensures keepProtections <==> !erase && cf in old(accounts) && old(accounts)[cf].verified
      ensures accounts == old(accounts) - {cf} && names == old(names) - {cf} && nicks == old(nicks) - {cf}
      ensures unregistered == if erase then old(unregistered) - {cf}
                              else if keepProtections then old(unregistered)[cf := accountName] else old(unregistered)
    {
      keepProtections := false;
      if erase {
        unregistered := unregistered - {cf};
      } else if cf in accounts && accounts[cf].verified {
        unregistered := unregistered[cf := accountName];
        keepProtections := true;
      }
      accounts, names, nicks := accounts - {cf}, names - {cf}, nicks - {cf};
    }

    /** The name is protected where applicable, but not any additional nick. */
    method DeleteFromCache(cf: string, skeleton: string, additionalNicks: seq<string>, protect: bool)
      modifies this`nickToAccount, this`skeletonToAccount
      ensures nickToAccount == old(nickToAccount) - ((if protect then {} else {cf}) + NickUnregister.Written(additionalNicks))
      ensures skeletonToAccount ==
              old(skeletonToAccount) - ((if protect then {} else {skeleton}) + NickUnregister.Skeletons(config.fold, additionalNicks))
    {
      if !protect {
        nickToAccount := nickToAccount - {cf};
        skeletonToAccount := skeletonToAccount - {skeleton};
      }
      DeleteNicks(additionalNicks);
    }

    /** Takes the nicks as they are written, and their skeletons, out of the cache. */
    method DeleteNicks(additionalNicks: seq<string>)
      modifies this`nickToAccount, this`skeletonToAccount
      ensures nickToAccount == old(nickToAccount) - NickUnregister.Written(additionalNicks)
      ensures skeletonToAccount == old(skeletonToAccount) - NickUnregister.Skeletons(config.fold, additionalNicks)
    {
      for i := 0 to |additionalNicks|
        invariant nickToAccount == old(nickToAccount) - NickUnregister.Written(additionalNicks[..i])
        invariant skeletonToAccount == old(skeletonToAccount) - NickUnregister.Skeletons(config.fold, additionalNicks[..i])
      {
        OneMoreNick(additionalNicks, i);
        nickToAccount := nickToAccount - {additionalNicks[i]};
        skeletonToAccount := skeletonToAccount - {OrEmpty(config.fold.skeleton(additionalNicks[i]))};
      }
      assert additionalNicks[..|additionalNicks|] == additionalNicks;
    }

    lemma {:induction false} OneMoreNick(additionalNicks: seq<string>, i: nat)
      requires i < |additionalNicks|
      ensures NickUnregister.Written(additionalNicks[..i + 1]) == NickUnregister.Written(additionalNicks[..i]) + {additionalNicks[i]}
      ensures NickUnregister.Skeletons(config.fold, additionalNicks[..i + 1]) ==
              NickUnregister.Skeletons(config.fold, additionalNicks[..i]) + {OrEmpty(config.fold.skeleton(additionalNicks[i]))}
    {
      assert additionalNicks[..i + 1] == additionalNicks[..i] + [additionalNicks[i]];
    }

    /** Reserving and dropping of additional nicks, by the owner or by an operator; the client's account need
        not be there any more. */
    method SetNickReserved(account: string, nick: string, saUnreserve: bool, reserve: bool) returns (error: Option<Error>)
      requires Inv(config, Now())
      modifies this`nicks, this`nickToAccount, this`skeletonToAccount
      ensures (Now(), error) == NickIndex.SetNickReserved(config, old(Now()), account, nick, saUnreserve, reserve)
      ensures !saUnreserve && (reserve ==> error.Some? || account in accounts) ==> Inv(config, Now())
    {
      ReserveIsRightExactly(config, Now(), account, nick);
      SelfDropKeepsInv(config, Now(), account, nick);
      var cf, sk := config.fold.casefold(nick), config.fold.skeleton(nick);
      if cf.None? || sk.None? || cf.value == "" || (reserve && saUnreserve) {
        return Some(ReservationFailed);
      }
      var cfnick, skeleton := cf.value, sk.value;
      if saUnreserve {
        var owner := Lookup(nickToAccount, cfnick);
        if owner == "" {
          // nobody has it
          return None;
        }
      }
      if account == "" {
        return Some(NotLoggedIn);
      }
      var accountForNick := Lookup(nickToAccount, cfnick);
      var accountForSkeleton := if reserve then Lookup(skeletonToAccount, skeleton) else "";
      if reserve && (accountForNick != "" || accountForSkeleton != "") {
        return Some(NicknameReserved);
      } else if !reserve && !saUnreserve && accountForNick != account {
        return Some(NicknameReserved);
      } else if !reserve && cfnick == account {
        return Some(CantDropPrimaryNick);
      }
      // the cache does not have the accounts that are not verified yet
      if reserve && cfnick in accounts {
        return Some(NicknameReserved);
      }
      if reserve {
        error := Reserve(account, nick, cfnick, skeleton);
      } else {
        Drop(account, cfnick, skeleton);
        error := None;
      }
    }

    method Reserve(account: string, nick: string, cfnick: string, skeleton: string) returns (error: Option<Error>)
      requires Lookup(nickToAccount, cfnick) == "" && Lookup(skeletonToAccount, skeleton) == "" && cfnick !in accounts
      modifies this`nicks, this`nickToAccount, this`skeletonToAccount
      ensures (Now(), error) == NickIndex.Reserve(config, old(Now()), account, nick, cfnick, skeleton)
    {
      var reserved := if account in nicks then nicks[account] else [];
      if |reserved| >= config.additionalNickLimit {
        return Some(TooManyNicks);
      }
      nicks := nicks[account := reserved + [nick]];
      nickToAccount := nickToAccount[cfnick := account];
      skeletonToAccount := skeletonToAccount[skeleton := account];
      return None;
    }

    method Drop(account: string, cfnick: string, given: string)
      modifies this`nicks, this`nickToAccount, this`skeletonToAccount
      ensures Now() == NickIndex.Drop(config, old(Now()), account, cfnick, given).0
    {
      var newNicks, skeleton := NicksWithout(if account in nicks then nicks[account] else [], cfnick, given);
      nicks := nicks[account := newNicks];
      nickToAccount := nickToAccount - {cfnick};
      skeletonToAccount := skeletonToAccount - {skeleton};
    }

    /** The nicks without the one that is dropped, and the skeleton of that one as it was reserved. */
    method NicksWithout(nicks: seq<string>, cfnick: string, given: string) returns (newNicks: seq<string>, skeleton: string)
      ensures newNicks == WithoutNick(config.fold, nicks, cfnick)
      ensures skeleton == DroppedSkeleton(config.fold, nicks, cfnick, given)
    {
      newNicks, skeleton := [], given;
      for i := 0 to |nicks|
        invariant newNicks + WithoutNick(config.fold, nicks[i..], cfnick) == WithoutNick(config.fold, nicks, cfnick)
        invariant DroppedSkeleton(config.fold, nicks[i..], cfnick, skeleton) == DroppedSkeleton(config.fold, nicks, cfnick, given)
      {
        assert nicks[i..][0] == nicks[i] && nicks[i..][1..] == nicks[i + 1..];
        if config.fold.casefold(nicks[i]) != Some(cfnick) {
          newNicks := newNicks + [nicks[i]];
        } else {
          // as it was reserved, which need not be how it is given now
          skeleton := OrEmpty(config.fold.skeleton(nicks[i]));
        }
      }
      assert nicks[|nicks|..] == [];
    }
  }
}
