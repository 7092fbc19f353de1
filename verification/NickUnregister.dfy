/** Unregister and Rename of accounts against the nickname cache (irc/accounts.go). Neither always leaves the
    cache as a rebuild would; for each kind of account there is the exact condition under which it does. */
module NickUnregister {
  import opened Common
  import opened NickIndex

  function Skeletons(fold: Folding, nicks: seq<string>): set<string> {
    set n | n in nicks :: if fold.skeleton(n).Some? then fold.skeleton(n).value else ""
  }

  function Written(nicks: seq<string>): set<string> {
    set n | n in nicks
  }

  /** The name that goes: that of the account or, without one, that of the former account. */
  function NameFor(s: State, cf: string): string {
    if Lookup(s.names, cf) != "" then s.names[cf] else Lookup(s.unregistered, cf)
  }

  /** Whether the name stays reserved, as that of a former account. */
  predicate IsProtected(config: Config, s: State, cf: string, erase: bool) {
    config.strict && !erase && cf in s.accounts && s.accounts[cf].verified
  }

  function DeletedNicks(config: Config, s: State, cf: string, erase: bool): set<string> {
    (if IsProtected(config, s, cf, erase) then {} else {cf}) + Written(NicksOf(s, cf))
  }

  function DeletedSkeletons(config: Config, s: State, cf: string, erase: bool): set<string> {
    (if IsProtected(config, s, cf, erase) then {} else {OrEmpty(config.fold.skeleton(NameFor(s, cf)))}) +
    Skeletons(config.fold, NicksOf(s, cf))
  }

  /** Unregister of an account or of a name without one. Of the additional nicks, the cache entry of the nick
      as it was written is deleted, and not that of its casefolded form. */
  function Unregister(config: Config, s: State, cf: string, erase: bool): State {
    State(s.accounts - {cf}, s.names - {cf}, s.nicks - {cf},
          if erase then s.unregistered - {cf}
          else if cf in s.accounts && s.accounts[cf].verified then s.unregistered[cf := NameFor(s, cf)]
          else s.unregistered,
          s.nickToAccount - DeletedNicks(config, s, cf, erase),
          s.skeletonToAccount - DeletedSkeletons(config, s, cf, erase))
  }

  /** Nothing of the account is left in the datastore but, unless it is erased, the name of one that was
      verified, which then cannot be registered again. */
  lemma {:induction false} UnregisterOutcome(config: Config, s: State, cf: string, erase: bool)
    ensures var s' := Unregister(config, s, cf, erase);
            var wasVerified := cf in s.accounts && s.accounts[cf].verified;
            && cf !in s'.accounts && cf !in s'.names && cf !in s'.nicks
            && (forall other :: other != cf ==>
                  && (other in s'.accounts <==> other in s.accounts) && (other in s.accounts ==> s'.accounts[other] == s.accounts[other])
                  && (other in s'.names <==> other in s.names) && (other in s.names ==> s'.names[other] == s.names[other])
                  && NicksOf(s', other) == NicksOf(s, other))
            && s'.unregistered == (if erase then s.unregistered - {cf}
                                   else if wasVerified then s.unregistered[cf := if cf in s.names && s.names[cf] != "" then s.names[cf]
                                                                                 else if cf in s.unregistered then s.unregistered[cf] else ""]
                                   else s.unregistered)
  {
  }

  /** Its keys leave the cache, but for a name that strict enforcement goes on to protect. */
  lemma {:induction false} UnregisteredKeys(config: Config, s: State, cf: string, erase: bool, key: string)
    ensures var s' := Unregister(config, s, cf, erase);
            var isKept := config.strict && !erase && cf in s.accounts && s.accounts[cf].verified;
            var name := if cf in s.names && s.names[cf] != "" then s.names[cf]
                        else if cf in s.unregistered then s.unregistered[cf] else "";
            && (key in s'.nickToAccount <==> key in s.nickToAccount && key !in NicksOf(s, cf) && (key == cf ==> isKept))
            && (key in s'.skeletonToAccount <==>
                  && key in s.skeletonToAccount && (forall n :: n in NicksOf(s, cf) ==> OrEmpty(config.fold.skeleton(n)) != key)
                  && (key == OrEmpty(config.fold.skeleton(name)) ==> isKept))
            && (key in s'.nickToAccount ==> s'.nickToAccount[key] == s.nickToAccount[key])
            && (key in s'.skeletonToAccount ==> s'.skeletonToAccount[key] == s.skeletonToAccount[key])
  {
  }

  /** Folding a folded nick changes nothing: Casefold iterates until it is stable. */
  ghost predicate FoldsOnce(fold: Folding) {
    forall nick :: fold.casefold(nick).Some? ==> fold.casefold(fold.casefold(nick).value) == fold.casefold(nick)
  }

  predicate IsFolded(fold: Folding, nick: string) {
    fold.casefold(nick) == Some(nick)
  }

  /** Where the reserved names of an account go: a protected name is still reserved, but now as that of a
      former account. */
  function Moved(config: Config, s: State, cf: string, erase: bool, item: Item): Item {
    if IsProtected(config, s, cf, erase) && item == Primary(cf) then Former(cf)
    else if IsProtected(config, s, cf, erase) && item == Former(cf) then Primary(cf)
    else item
  }

  lemma {:induction false} MovedTwice(config: Config, s: State, cf: string, erase: bool, item: Item)
    ensures Moved(config, s, cf, erase, Moved(config, s, cf, erase, item)) == item
    ensures Moved(config, s, cf, erase, item).account == item.account
  {
  }

  /** Keys that are the same but for the move. */
  ghost predicate AreMoved(config: Config, s: State, cf: string, erase: bool, key: Keys, key': Keys) {
    forall item :: key(item) == key'(Moved(config, s, cf, erase, item))
  }

  lemma {:induction false} MovedBack(config: Config, s: State, cf: string, erase: bool, key: Keys, key': Keys)
    requires AreMoved(config, s, cf, erase, key, key')
    ensures AreMoved(config, s, cf, erase, key', key)
  {
    forall item ensures key'(item) == key(Moved(config, s, cf, erase, item)) {
      MovedTwice(config, s, cf, erase, item);
      assert key(Moved(config, s, cf, erase, item)) == key'(Moved(config, s, cf, erase, Moved(config, s, cf, erase, item)));
    }
  }

  lemma {:induction false} MovedOwnership(config: Config, s: State, cf: string, erase: bool, key: Keys, key': Keys)
    requires OwnedOnce(key) && AreMoved(config, s, cf, erase, key, key')
    ensures OwnedOnce(key')
  {
    MovedBack(config, s, cf, erase, key, key');
    forall a, b | key'(a).Some? && key'(a) == key'(b) ensures a == b {
      assert key'(a) == key(Moved(config, s, cf, erase, a)) && key'(b) == key(Moved(config, s, cf, erase, b));
      MovedTwice(config, s, cf, erase, a);
      MovedTwice(config, s, cf, erase, b);
    }
  }

  /** The index of what is reserved does not depend on why it is. */
  lemma {:induction false} MovedIndex(config: Config, s: State, cf: string, erase: bool, index: map<string, string>, key: Keys, key': Keys)
    requires AreMoved(config, s, cf, erase, key, key') && IsIndexOf(index, key)
    ensures IsIndexOf(index, key')
  {
    MovedBack(config, s, cf, erase, key, key');
    forall item | key'(item).Some? ensures key'(item).value in index && index[key'(item).value] == item.account {
      assert key'(item) == key(Moved(config, s, cf, erase, item));
      MovedTwice(config, s, cf, erase, item);
    }
    forall k | k in index ensures exists item :: key'(item) == Some(k) {
      var item :| key(item) == Some(k);
      assert key'(Moved(config, s, cf, erase, item)) == Some(k);
    }
  }

  function FoldedNicks(fold: Folding, nicks: seq<string>): set<string> {
    set n | n in nicks :: OrEmpty(fold.casefold(n))
  }

  /** The keys of the names that are no longer reserved. */
  function GoneNicks(config: Config, s: State, cf: string, erase: bool): set<string> {
    (if IsProtected(config, s, cf, erase) then {} else {cf}) + FoldedNicks(config.fold, NicksOf(s, cf))
  }

  function GoneSkeletons(config: Config, s: State, cf: string, erase: bool): set<string>
    requires cf in s.accounts
  {
    (if !s.accounts[cf].verified || IsProtected(config, s, cf, erase) then {}
     else {OrEmpty(config.fold.skeleton(Lookup(s.names, cf)))}) +
    Skeletons(config.fold, NicksOf(s, cf))
  }

  ghost predicate GoesRight(config: Config, s: State, cf: string, erase: bool, item: Item)
    requires cf in s.accounts
  {
    var s', moved := Unregister(config, s, cf, erase), Moved(config, s, cf, erase, item);
    && Cf(config, s', moved) == (if Cf(config, s, item).Some? && Cf(config, s, item).value in GoneNicks(config, s, cf, erase)
                                 then None else Cf(config, s, item))
    && Sk(config, s', moved) == (if Sk(config, s, item).Some? && Sk(config, s, item).value in GoneSkeletons(config, s, cf, erase)
                                 then None else Sk(config, s, item))
  }

  lemma {:induction false} OtherItems(config: Config, s: State, cf: string, erase: bool, item: Item)
    requires Inv(config, s) && cf in s.accounts && item.account != cf
    ensures GoesRight(config, s, cf, erase, item)
  {
    OtherItemsStay(config, s, cf, erase, item);
    if Holds(config, s, item) {
      KeyIsNotGone(config, s, cf, erase, item);
    }
  }

  lemma {:induction false} OtherItemsStay(config: Config, s: State, cf: string, erase: bool, item: Item)
    requires item.account != cf
    ensures var s' := Unregister(config, s, cf, erase);
            && Moved(config, s, cf, erase, item) == item
            && Cf(config, s', item) == Cf(config, s, item) && Sk(config, s', item) == Sk(config, s, item)
  {
    assert NicksOf(Unregister(config, s, cf, erase), item.account) == NicksOf(s, item.account);
  }

  lemma {:induction false} OwnItems(config: Config, s: State, cf: string, erase: bool, item: Item)
    requires Inv(config, s) && cf in s.accounts && item.account == cf
    ensures GoesRight(config, s, cf, erase, item)
  {
    assert AccountInv(config, s, cf);
    if Holds(config, s, item) {
      KeyIsNotGone(config, s, cf, erase, item);
    }
  }

  lemma {:induction false} KeyIsNotGone(config: Config, s: State, cf: string, erase: bool, item: Item)
    requires Inv(config, s) && cf in s.accounts && Holds(config, s, item)
    ensures Cf(config, s, item).value in GoneNicks(config, s, cf, erase) ==> item.account == cf
    ensures Sk(config, s, item).Some?
    ensures Sk(config, s, item).value in GoneSkeletons(config, s, cf, erase) ==> item.account == cf
    ensures IsProtected(config, s, cf, erase) && item == Primary(cf) ==>
              && Cf(config, s, item).value !in GoneNicks(config, s, cf, erase)
              && Sk(config, s, item).value !in GoneSkeletons(config, s, cf, erase)
  {
    NickIsNotGone(config, s, cf, erase, item);
    SkeletonIsNotGone(config, s, cf, erase, item);
  }

  lemma {:induction false} NickIsNotGone(config: Config, s: State, cf: string, erase: bool, item: Item)
    requires Inv(config, s) && cf in s.accounts && Holds(config, s, item)
    ensures Cf(config, s, item).value in GoneNicks(config, s, cf, erase) ==> item.account == cf
    ensures IsProtected(config, s, cf, erase) && item == Primary(cf) ==> Cf(config, s, item).value !in GoneNicks(config, s, cf, erase)
  {
    var key := Cfs(config, s);
    assert key(item) == Cf(config, s, item) && AccountInv(config, s, cf);
    assert s.accounts[cf].verified ==> key(Primary(cf)) == Some(cf);
    forall n | n in NicksOf(s, cf) ensures key(Additional(cf, n)) == Some(OrEmpty(config.fold.casefold(n))) {
      assert Holds(config, s, Additional(cf, n));
    }
  }

  lemma {:induction false} SkeletonIsOfNick(config: Config, s: State, cf: string, item: Item, n: string)
    requires Inv(config, s) && cf in s.accounts && n in NicksOf(s, cf)
    requires Sk(config, s, item) == Some(OrEmpty(config.fold.skeleton(n)))
    ensures item == Additional(cf, n)
  {
    assert Holds(config, s, Additional(cf, n));
    assert Sks(config, s)(item) == Sks(config, s)(Additional(cf, n));
  }

  lemma {:induction false} SkeletonIsOfName(config: Config, s: State, cf: string, item: Item)
    requires Inv(config, s) && cf in s.accounts && s.accounts[cf].verified
    requires Sk(config, s, item) == Some(OrEmpty(config.fold.skeleton(Lookup(s.names, cf))))
    ensures item == Primary(cf)
  {
    assert AccountInv(config, s, cf);
    assert Sks(config, s)(item) == Sks(config, s)(Primary(cf));
  }

  lemma {:induction false} SkeletonIsNotGone(config: Config, s: State, cf: string, erase: bool, item: Item)
    requires Inv(config, s) && cf in s.accounts && Holds(config, s, item)
    ensures Sk(config, s, item).Some?
    ensures Sk(config, s, item).value in GoneSkeletons(config, s, cf, erase) ==> item.account == cf
    ensures IsProtected(config, s, cf, erase) && item == Primary(cf) ==> Sk(config, s, item).value !in GoneSkeletons(config, s, cf, erase)
  {
    if item.Primary? { assert AccountInv(config, s, item.account); }
    var sk := Sk(config, s, item).value;
    if sk in GoneSkeletons(config, s, cf, erase) {
      if n :| n in NicksOf(s, cf) && sk == OrEmpty(config.fold.skeleton(n)) {
        SkeletonIsOfNick(config, s, cf, item, n);
      } else {
        SkeletonIsOfName(config, s, cf, item);
      }
    }
  }

  ghost function MovedCfs(config: Config, s: State, cf: string, erase: bool): Keys {
    item => Cf(config, Unregister(config, s, cf, erase), Moved(config, s, cf, erase, item))
  }

  ghost function MovedSks(config: Config, s: State, cf: string, erase: bool): Keys {
    item => Sk(config, Unregister(config, s, cf, erase), Moved(config, s, cf, erase, item))
  }

  lemma {:induction false} MovedEitherWay(config: Config, s: State, cf: string, erase: bool, index: map<string, string>, key: Keys, key': Keys)
    requires AreMoved(config, s, cf, erase, key, key')
    ensures IsIndexOf(index, key') <==> IsIndexOf(index, key)
  {
    if IsIndexOf(index, key) {
      MovedIndex(config, s, cf, erase, index, key, key');
    }
    if IsIndexOf(index, key') {
      MovedBack(config, s, cf, erase, key, key');
      MovedIndex(config, s, cf, erase, index, key', key);
    }
  }

  /** The keys of two reserved names of an account are different. */
  lemma {:induction false} OwnNicksDiffer(config: Config, s: State, cf: string, nick: string, other: string)
    requires Inv(config, s) && cf in s.accounts && nick in NicksOf(s, cf)
    ensures OrEmpty(config.fold.casefold(nick)) in s.nickToAccount && OrEmpty(config.fold.casefold(nick)) != cf
    ensures other in NicksOf(s, cf) && config.fold.casefold(other) == config.fold.casefold(nick) ==> other == nick
  {
    var key := Cfs(config, s);
    assert AccountInv(config, s, cf);
    assert key(Additional(cf, nick)) == Some(OrEmpty(config.fold.casefold(nick)));
    assert s.accounts[cf].verified ==> key(Primary(cf)) == Some(cf);
    if other in NicksOf(s, cf) {
      assert key(Additional(cf, other)) == Some(OrEmpty(config.fold.casefold(other)));
    }
  }

  lemma {:induction false} UnfoldedNickStays(config: Config, s: State, cf: string, erase: bool, nick: string)
    requires Inv(config, s) && cf in s.accounts && FoldsOnce(config.fold)
    requires nick in NicksOf(s, cf) && !IsFolded(config.fold, nick)
    ensures var k := OrEmpty(config.fold.casefold(nick));
            k in s.nickToAccount && k in GoneNicks(config, s, cf, erase) && k !in DeletedNicks(config, s, cf, erase)
  {
    assert AccountInv(config, s, cf);
    var k := config.fold.casefold(nick).value;
    assert config.fold.casefold(k) == Some(k);
    OwnNicksDiffer(config, s, cf, nick, k);
  }

  predicate AllFolded(fold: Folding, nicks: seq<string>) {
    forall nick :: nick in nicks ==> IsFolded(fold, nick)
  }

  /** The same entries go, of those that the index has. */
  ghost predicate SameKeys(index: map<string, string>, deleted: set<string>, gone: set<string>) {
    forall k :: k in index ==> (k in deleted <==> k in gone)
  }

  /** The entries that Unregister deletes and those that should go are the same exactly if every nick is
      written as it folds. */
  lemma {:induction false} DeletesTheRightNicks(config: Config, s: State, cf: string, erase: bool)
    requires Inv(config, s) && cf in s.accounts && FoldsOnce(config.fold)
    ensures SameKeys(s.nickToAccount, DeletedNicks(config, s, cf, erase), GoneNicks(config, s, cf, erase)) <==>
            AllFolded(config.fold, NicksOf(s, cf))
  {
    var nicks := NicksOf(s, cf);
    if nick :| nick in nicks && !IsFolded(config.fold, nick) {
      UnfoldedNickStays(config, s, cf, erase, nick);
    } else {
      assert forall n :: n in nicks ==> OrEmpty(config.fold.casefold(n)) == n;
      assert DeletedNicks(config, s, cf, erase) == GoneNicks(config, s, cf, erase);
    }
  }

  /** Nobody else has the skeleton of the account's name. */
  predicate OwnsSkeleton(config: Config, s: State, cf: string) {
    var sk := OrEmpty(config.fold.skeleton(Lookup(s.names, cf)));
    sk in s.skeletonToAccount ==> s.skeletonToAccount[sk] == cf
  }

  /** The skeleton of an unverified account's name is reserved by the account itself exactly as that of one of
      its nicks. */
  lemma {:induction false} OwnSkeletonIsOfNick(config: Config, s: State, cf: string)
    requires Inv(config, s) && cf in s.accounts && !s.accounts[cf].verified
    ensures var sk := OrEmpty(config.fold.skeleton(Lookup(s.names, cf)));
            sk in s.skeletonToAccount ==> (s.skeletonToAccount[sk] == cf <==> sk in Skeletons(config.fold, NicksOf(s, cf)))
  {
    var sk := OrEmpty(config.fold.skeleton(Lookup(s.names, cf)));
    assert AccountInv(config, s, cf);
    if sk in s.skeletonToAccount {
      var item :| Sks(config, s)(item) == Some(sk);
      assert Holds(config, s, item);
      if n :| n in NicksOf(s, cf) && sk == OrEmpty(config.fold.skeleton(n)) {
        assert Holds(config, s, Additional(cf, n)) && Sks(config, s)(Additional(cf, n)) == Some(sk);
      }
    }
  }

  /** With the skeletons the same holds exactly if the skeleton of an unverified account is not reserved by
      somebody else, by a name that has been verified or reserved in the meantime. */
  lemma {:induction false} DeletesTheRightSkeletons(config: Config, s: State, cf: string, erase: bool)
    requires Inv(config, s) && cf in s.accounts
    ensures SameKeys(s.skeletonToAccount, DeletedSkeletons(config, s, cf, erase), GoneSkeletons(config, s, cf, erase)) <==>
            s.accounts[cf].verified || OwnsSkeleton(config, s, cf)
  {
    var sk := OrEmpty(config.fold.skeleton(Lookup(s.names, cf)));
    assert AccountInv(config, s, cf) && NameFor(s, cf) == Lookup(s.names, cf);
    if s.accounts[cf].verified {
      assert DeletedSkeletons(config, s, cf, erase) == GoneSkeletons(config, s, cf, erase);
    } else {
      OwnSkeletonIsOfNick(config, s, cf);
      assert DeletedSkeletons(config, s, cf, erase) == {sk} + GoneSkeletons(config, s, cf, erase);
    }
  }

  lemma {:induction false} AllGoRight(config: Config, s: State, cf: string, erase: bool)
    requires Inv(config, s) && cf in s.accounts
    ensures forall item :: GoesRight(config, s, cf, erase, item)
  {
    forall item ensures GoesRight(config, s, cf, erase, item) {
      if item.account == cf { OwnItems(config, s, cf, erase, item); } else { OtherItems(config, s, cf, erase, item); }
    }
  }

  /** An index from which some keys are deleted, after some items are gone and the others have moved. */
  lemma {:induction false} MovedAndDeleted(config: Config, s: State, cf: string, erase: bool, index: map<string, string>,
                        key: Keys, moved: Keys, key': Keys, gone: set<string>, deleted: set<string>)
    requires OwnedOnce(key) && IsIndexOf(index, key) && AreMoved(config, s, cf, erase, moved, key')
    requires forall item :: moved(item) == if key(item).Some? && key(item).value in gone then None else key(item)
    ensures IsIndexOf(index - deleted, key') <==> SameKeys(index, deleted, gone)
    ensures OwnedOnce(key')
  {
    DeletedFromIndex(index, key, moved, gone, deleted);
    MovedEitherWay(config, s, cf, erase, index - deleted, moved, key');
    MovedOwnership(config, s, cf, erase, moved, key');
  }

  lemma {:induction false} NicksGoRight(config: Config, s: State, cf: string, erase: bool)
    requires Inv(config, s) && cf in s.accounts
    ensures forall item :: MovedCfs(config, s, cf, erase)(item) ==
              if Cfs(config, s)(item).Some? && Cfs(config, s)(item).value in GoneNicks(config, s, cf, erase)
              then None else Cfs(config, s)(item)
  {
    AllGoRight(config, s, cf, erase);
    forall item
      ensures MovedCfs(config, s, cf, erase)(item) ==
                if Cfs(config, s)(item).Some? && Cfs(config, s)(item).value in GoneNicks(config, s, cf, erase)
                then None else Cfs(config, s)(item)
    {
      assert GoesRight(config, s, cf, erase, item);
    }
  }

  lemma {:induction false} NicksAfterUnregister(config: Config, s: State, cf: string, erase: bool)
    requires Inv(config, s) && cf in s.accounts
    ensures IsIndexOf(s.nickToAccount - DeletedNicks(config, s, cf, erase), Cfs(config, Unregister(config, s, cf, erase))) <==>
            SameKeys(s.nickToAccount, DeletedNicks(config, s, cf, erase), GoneNicks(config, s, cf, erase))
    ensures OwnedOnce(Cfs(config, Unregister(config, s, cf, erase)))
  {
    var key' := Cfs(config, Unregister(config, s, cf, erase));
    NicksGoRight(config, s, cf, erase);
    assert AreMoved(config, s, cf, erase, MovedCfs(config, s, cf, erase), key');
    MovedAndDeleted(config, s, cf, erase, s.nickToAccount, Cfs(config, s), MovedCfs(config, s, cf, erase), key',
                    GoneNicks(config, s, cf, erase), DeletedNicks(config, s, cf, erase));
  }

  lemma {:induction false} SkeletonsGoRight(config: Config, s: State, cf: string, erase: bool)
    requires Inv(config, s) && cf in s.accounts
    ensures forall item :: MovedSks(config, s, cf, erase)(item) ==
              if Sks(config, s)(item).Some? && Sks(config, s)(item).value in GoneSkeletons(config, s, cf, erase)
              then None else Sks(config, s)(item)
  {
    AllGoRight(config, s, cf, erase);
    forall item
      ensures MovedSks(config, s, cf, erase)(item) ==
                if Sks(config, s)(item).Some? && Sks(config, s)(item).value in GoneSkeletons(config, s, cf, erase)
                then None else Sks(config, s)(item)
    {
      assert GoesRight(config, s, cf, erase, item);
    }
  }

  lemma {:induction false} SkeletonsAfterUnregister(config: Config, s: State, cf: string, erase: bool)
    requires Inv(config, s) && cf in s.accounts
    ensures IsIndexOf(s.skeletonToAccount - DeletedSkeletons(config, s, cf, erase), Sks(config, Unregister(config, s, cf, erase))) <==>
            SameKeys(s.skeletonToAccount, DeletedSkeletons(config, s, cf, erase), GoneSkeletons(config, s, cf, erase))
    ensures OwnedOnce(Sks(config, Unregister(config, s, cf, erase)))
  {
    var key' := Sks(config, Unregister(config, s, cf, erase));
    SkeletonsGoRight(config, s, cf, erase);
    assert AreMoved(config, s, cf, erase, MovedSks(config, s, cf, erase), key');
    MovedAndDeleted(config, s, cf, erase, s.skeletonToAccount, Sks(config, s), MovedSks(config, s, cf, erase), key',
                    GoneSkeletons(config, s, cf, erase), DeletedSkeletons(config, s, cf, erase));
  }

  lemma {:induction false} UnregisteredCache(config: Config, s: State, cf: string, erase: bool)
    ensures var s' := Unregister(config, s, cf, erase);
            && s'.nickToAccount == s.nickToAccount - DeletedNicks(config, s, cf, erase)
            && s'.skeletonToAccount == s.skeletonToAccount - DeletedSkeletons(config, s, cf, erase)
  {
  }

  /** Unregistering an account leaves the cache right exactly if none of its additional nicks differs from its
      casefolded form and, for an unverified account, as Register unregisters it again when the verification
      message cannot be sent, its skeleton is not reserved by somebody else. */
  lemma {:induction false} UnregisterIsRightExactly(config: Config, s: State, cf: string, erase: bool)
    requires Inv(config, s) && cf in s.accounts && FoldsOnce(config.fold)
    ensures StoreInv(config, Unregister(config, s, cf, erase))
    ensures Synced(config, Unregister(config, s, cf, erase)) <==>
            AllFolded(config.fold, NicksOf(s, cf)) && (s.accounts[cf].verified || OwnsSkeleton(config, s, cf))
  {
    UnregisterKeepsAccounts(config, s, cf, erase);
    UnregisteredCache(config, s, cf, erase);
    NicksAfterUnregister(config, s, cf, erase);
    SkeletonsAfterUnregister(config, s, cf, erase);
    DeletesTheRightNicks(config, s, cf, erase);
    DeletesTheRightSkeletons(config, s, cf, erase);
  }

  lemma {:induction false} UnregisterKeepsAccounts(config: Config, s: State, cf: string, erase: bool)
    requires Inv(config, s)
    ensures var s' := Unregister(config, s, cf, erase);
            && (forall c :: c in s'.accounts ==> AccountInv(config, s', c))
            && (forall c :: c in s'.unregistered ==> c != "")
            && (forall c :: c !in s'.accounts ==> NicksOf(s', c) == [])
  {
    var s' := Unregister(config, s, cf, erase);
    if cf in s.accounts { assert AccountInv(config, s, cf); }
    forall c | c in s'.accounts ensures AccountInv(config, s', c) {
      assert AccountInv(config, s, c);
      assert NicksOf(s', c) == NicksOf(s, c);
    }
  }

  // ---------------------------------------------------------------- names without an active account

  /** Whether the name is reserved for the former account of that name, and no longer will be. */
  predicate IsErased(config: Config, s: State, cf: string, erase: bool) {
    config.strict && erase && cf in s.unregistered
  }

  /** For a former account whose protection ends, the name that is found is the one it had, so far as the
      skeleton goes. */
  predicate HasFormerName(config: Config, s: State, cf: string)
    requires cf in s.unregistered
  {
    OrEmpty(config.fold.skeleton(NameFor(s, cf))) == OrEmpty(config.fold.skeleton(s.unregistered[cf]))
  }

  lemma {:induction false} AbsentItems(config: Config, s: State, cf: string, erase: bool, item: Item)
    requires cf !in s.accounts
    ensures var s' := Unregister(config, s, cf, erase);
            && Cf(config, s', item) == (if IsErased(config, s, cf, erase) && item == Former(cf) then None else Cf(config, s, item))
            && Sk(config, s', item) == (if IsErased(config, s, cf, erase) && item == Former(cf) then None else Sk(config, s, item))
  {
  }

  lemma {:induction false} ErasedIsRightExactly(config: Config, s: State, cf: string)
    requires Inv(config, s) && cf !in s.accounts && IsErased(config, s, cf, true)
    ensures StoreInv(config, Unregister(config, s, cf, true))
    ensures Synced(config, Unregister(config, s, cf, true)) <==> HasFormerName(config, s, cf)
  {
    var s' := Unregister(config, s, cf, true);
    var kept, deleted := OrEmpty(config.fold.skeleton(s.unregistered[cf])), OrEmpty(config.fold.skeleton(NameFor(s, cf)));
    UnregisterKeepsAccounts(config, s, cf, true);
    forall item { AbsentItems(config, s, cf, true, item); }
    assert Cfs(config, s)(Former(cf)) == Some(cf) && Sks(config, s)(Former(cf)) == Some(kept);
    assert DeletedNicks(config, s, cf, true) == {cf} && DeletedSkeletons(config, s, cf, true) == {deleted};
    DeletedFromIndex(s.nickToAccount, Cfs(config, s), Cfs(config, s'), {cf}, {cf});
    DeletedFromIndex(s.skeletonToAccount, Sks(config, s), Sks(config, s'), {kept}, {deleted});
  }

  /** Unregistering a name without an active account is right exactly if that erases a former account whose
      name is protected, under the name that it had, or if neither the name nor its skeleton is reserved. */
  lemma {:induction false} AbsentUnregisterIsRightExactly(config: Config, s: State, cf: string, erase: bool)
    requires Inv(config, s) && cf !in s.accounts
    ensures StoreInv(config, Unregister(config, s, cf, erase))
    ensures Synced(config, Unregister(config, s, cf, erase)) <==>
            if IsErased(config, s, cf, erase) then HasFormerName(config, s, cf)
            else cf !in s.nickToAccount && OrEmpty(config.fold.skeleton(NameFor(s, cf))) !in s.skeletonToAccount
  {
    if IsErased(config, s, cf, erase) {
      ErasedIsRightExactly(config, s, cf);
    } else {
      var s', sk := Unregister(config, s, cf, erase), OrEmpty(config.fold.skeleton(NameFor(s, cf)));
      UnregisterKeepsAccounts(config, s, cf, erase);
      forall item { AbsentItems(config, s, cf, erase, item); }
      assert DeletedNicks(config, s, cf, erase) == {cf} && DeletedSkeletons(config, s, cf, erase) == {sk};
      DeletedFromIndex(s.nickToAccount, Cfs(config, s), Cfs(config, s'), {}, {cf});
      DeletedFromIndex(s.skeletonToAccount, Sks(config, s), Sks(config, s'), {}, {sk});
    }
  }

  // ---------------------------------------------------------------- Rename

  /** Whether the name of the account is reserved as such. */
  predicate IsVerified(s: State, cf: string) {
    cf in s.accounts && s.accounts[cf].verified
  }

  lemma {:induction false} RenamedItems(config: Config, s: State, cf: string, newName: string, item: Item)
    requires cf in s.accounts ==> cf in s.names
    ensures var s' := StoreName(s, cf, newName);
            && Cf(config, s', item) == Cf(config, s, item)
            && Sk(config, s', item) == if item == Primary(cf) && IsVerified(s, cf) then Some(OrEmpty(config.fold.skeleton(newName)))
                                       else Sk(config, s, item)
  {
  }

  lemma {:induction false} RenamedToOtherSkeleton(config: Config, s: State, cf: string, newName: string)
    requires Inv(config, s) && IsVerified(s, cf) && Sk(config, s, Primary(cf)) != Some(OrEmpty(config.fold.skeleton(newName)))
    ensures !Synced(config, StoreName(s, cf, newName))
  {
    assert AccountInv(config, s, cf);
    forall item { RenamedItems(config, s, cf, newName, item); }
    var before := Sks(config, s)(Primary(cf));
    assert forall item :: Sks(config, StoreName(s, cf, newName))(item) != before;
    assert before.value in s.skeletonToAccount;
  }

  lemma {:induction false} RenamedToSameSkeleton(config: Config, s: State, cf: string, newName: string)
    requires Inv(config, s)
    requires IsVerified(s, cf) ==> Sk(config, s, Primary(cf)) == Some(OrEmpty(config.fold.skeleton(newName)))
    ensures Inv(config, StoreName(s, cf, newName))
  {
    var s' := StoreName(s, cf, newName);
    if cf in s.accounts { assert AccountInv(config, s, cf); }
    forall item { RenamedItems(config, s, cf, newName, item); }
    SameItems(config, s, s');
    forall c | c in s'.accounts ensures AccountInv(config, s', c) { assert AccountInv(config, s, c); }
    assert forall c :: NicksOf(s', c) == NicksOf(s, c);
  }

  /** Renaming a verified account is right exactly if its skeleton stays the same; that of an unverified one
      is not in the cache yet. */
  lemma {:induction false} RenameIsRightExactlyForTheSameSkeleton(config: Config, s: State, cf: string, newName: string)
    requires Inv(config, s)
    ensures var s' := StoreName(s, cf, newName);
            && (Synced(config, s') <==> IsVerified(s, cf) ==> Sk(config, s, Primary(cf)) == Some(OrEmpty(config.fold.skeleton(newName))))
            && (Synced(config, s') ==> Inv(config, s'))
  {
    if IsVerified(s, cf) && Sk(config, s, Primary(cf)) != Some(OrEmpty(config.fold.skeleton(newName))) {
      RenamedToOtherSkeleton(config, s, cf, newName);
    } else {
      RenamedToSameSkeleton(config, s, cf, newName);
    }
  }
}
