/** The cache of reserved nicknames and their skeletons (irc/accounts.go), against what a rebuild from the
    datastore would give. Nick reservation is enabled.

    All operations but Rename hold serialCacheUpdateMutex. The expiry of an unverified account and Rename
    come in between their parts; that matters for Verify, which reads the name of the account before it
    changes it, so it is given in two parts. Each operation is a function from the state to the new state
    and an error. */
module NickIndex {
  import opened Common

  /** An account of the datastore, under its casefolded name; `nameExpires` if its name is stored with the
      time limit of an unverified account. */
  datatype Account = Account(verified: bool, nameExpires: bool)

  /** The keys of the datastore for accounts that exist, for names as they are written and for additional
      nicks, which can be there without the account, and for the names of accounts that once existed; and
      the cache. */
  datatype State = State(accounts: map<string, Account>, names: map<string, string>, nicks: map<string, seq<string>>,
                         unregistered: map<string, string>,
                         nickToAccount: map<string, string>, skeletonToAccount: map<string, string>)

  /** `strict` is the strict enforcement method, which protects the names of unregistered accounts. */
  datatype Config = Config(fold: Folding, strict: bool, additionalNickLimit: nat)

  datatype Error =
    | AccountCreation | NameReserved | AlreadyUnregistered | AlreadyRegistered
    | VerificationFailed | DoesNotExist | ConfusableIdentifier | AlreadyVerified | InvalidCode
    | ReservationFailed | NotLoggedIn | NicknameReserved | CantDropPrimaryNick | TooManyNicks
    | FeatureDisabled | AlreadyLoggedIn | LimitExceeded | MustHoldNick | BadPassphrase

  // ---------------------------------------------------------------- the operations

  function Lookup(index: map<string, string>, key: string): string {
    if key in index then index[key] else ""
  }

  function NickToAccount(config: Config, s: State, nick: string): string {
    match config.fold.casefold(nick)
    case None => ""
    case Some(cfnick) =>
      match config.fold.skeleton(nick)
      case None => ""
      case Some(skeleton) =>
        if Lookup(s.nickToAccount, cfnick) != "" then s.nickToAccount[cfnick] else Lookup(s.skeletonToAccount, skeleton)
  }

  predicate IsPlaceholder(name: string) {
    name == "" || name == "*"
  }

  /** What Register asks about a request before it takes the mutex: whether the name is restricted, whether
      registration is allowed, whether the client is logged in, over the limit, or could take the nickname,
      whether the name has the form of a guest nickname, and whether the passphrase is accepted. */
  datatype Request = Request(isRestricted: bool, isAllowed: bool, isLoggedIn: bool, isThrottled: bool, mayHoldNick: bool,
                             isGuestNick: bool, isPassphraseFine: bool)

  function Refusal(request: Request): Option<Error> {
    if request.isRestricted then Some(AlreadyRegistered)
    else if !request.isAllowed then Some(FeatureDisabled)
    else if request.isLoggedIn then Some(AlreadyLoggedIn)
    else if request.isThrottled then Some(LimitExceeded)
    else if !request.mayHoldNick then Some(MustHoldNick)
    else if request.isGuestNick then Some(AlreadyRegistered)
    else if !request.isPassphraseFine then Some(BadPassphrase)
    else None
  }

  function Register(config: Config, s: State, name: string, request: Request): (State, Option<Error>) {
    match config.fold.casefold(name)
    case None => (s, Some(AccountCreation))
    case Some(cf) =>
      if config.fold.skeleton(name).None? || IsPlaceholder(name) then (s, Some(AccountCreation))
      else if Refusal(request).Some? then (s, Refusal(request))
      else if NickToAccount(config, s, name) != "" then (s, Some(NameReserved))
      else if cf in s.unregistered then (s, Some(AlreadyUnregistered))
      else if cf in s.accounts then (s, Some(AlreadyRegistered))
      else (s.(accounts := s.accounts[cf := Account(false, true)], names := s.names[cf := name]), None)
  }

  /** What Verify finds out before it changes anything: the account, and the skeleton of its name. */
  datatype Verification = Verification(cf: string, skeleton: string)

  function ReadName(config: Config, s: State, name: string): Result<Verification, Error> {
    match config.fold.casefold(name)
    case None => Err(VerificationFailed)
    case Some(cf) =>
      if IsPlaceholder(name) then Err(VerificationFailed)
      else if cf !in s.names then Err(DoesNotExist)
      else
        match config.fold.skeleton(s.names[cf])
        case None => Err(DoesNotExist)
        case Some(skeleton) =>
          if skeleton in s.skeletonToAccount then Err(ConfusableIdentifier) else Ok(Verification(cf, skeleton))
  }

  /** The transaction of Verify, with the change of the cache. `mayVerify` is the outcome of comparing the code. */
  function Commit(s: State, v: Verification, mayVerify: bool): (State, Option<Error>) {
    if v.cf !in s.accounts then (s, Some(DoesNotExist))
    else if s.accounts[v.cf].verified then (s, Some(AlreadyVerified))
    else if !mayVerify then (s, Some(InvalidCode))
    else
      (s.(accounts := s.accounts[v.cf := Account(true, false)],
          nickToAccount := s.nickToAccount[v.cf := v.cf], skeletonToAccount := s.skeletonToAccount[v.skeleton := v.cf]), None)
  }

  /** What Rename stores, whether or not the account that it has found before is still there. It changes the
      name only to one with the same casefolding, and does not look at the cache. */
  function StoreName(s: State, cf: string, newName: string): State {
    s.(names := s.names[cf := newName],
       accounts := if cf in s.accounts then s.accounts[cf := s.accounts[cf].(nameExpires := false)] else s.accounts)
  }

  /** Verify; `renamed` is what a Rename stores while it is under way, if any does. */
  function Verify(config: Config, s: State, name: string, mayVerify: bool, renamed: Option<string>): (State, Option<Error>) {
    match ReadName(config, s, name)
    case Err(error) => (s, Some(error))
    case Ok(v) => Commit(if renamed.Some? then StoreName(s, v.cf, renamed.value) else s, v, mayVerify)
  }

  /** The nicks that do not fold to `cfnick`. */
  function WithoutNick(fold: Folding, nicks: seq<string>, cfnick: string): seq<string> {
    if nicks == [] then []
    else if fold.casefold(nicks[0]) == Some(cfnick) then WithoutNick(fold, nicks[1..], cfnick)
    else [nicks[0]] + WithoutNick(fold, nicks[1..], cfnick)
  }

  /** The skeleton of the nick that is dropped, as it was reserved; `given` if it is not among the nicks. */
  function DroppedSkeleton(fold: Folding, nicks: seq<string>, cfnick: string, given: string): string {
    if nicks == [] then given
    else
      var skeleton := fold.skeleton(nicks[0]);
      DroppedSkeleton(fold, nicks[1..], cfnick,
                      if fold.casefold(nicks[0]) != Some(cfnick) then given else if skeleton.Some? then skeleton.value else "")
  }

  /** SetNickReserved for a client that is logged into `account`, "" if it is not logged in; the account need
      not be there any more. For an operator's
      drop the account of the nick is looked up, but the variable it is put into is not the one used
      afterwards, which is still the operator's account. */
  function SetNickReserved(config: Config, s: State, account: string, nick: string, saUnreserve: bool, reserve: bool)
    : (State, Option<Error>)
  {
    match config.fold.casefold(nick)
    case None => (s, Some(ReservationFailed))
    case Some(cfnick) =>
      match config.fold.skeleton(nick)
      case None => (s, Some(ReservationFailed))
      case Some(skeleton) =>
        if cfnick == "" || (reserve && saUnreserve) then (s, Some(ReservationFailed))
        else if saUnreserve && Lookup(s.nickToAccount, cfnick) == "" then (s, None)
        else if account == "" then (s, Some(NotLoggedIn))
        else if reserve then Reserve(config, s, account, nick, cfnick, skeleton)
        else if !saUnreserve && Lookup(s.nickToAccount, cfnick) != account then (s, Some(NicknameReserved))
        else if cfnick == account then (s, Some(CantDropPrimaryNick))
        else Drop(config, s, account, cfnick, skeleton)
  }

  function NicksOf(s: State, account: string): seq<string> {
    if account in s.nicks then s.nicks[account] else []
  }

  function Reserve(config: Config, s: State, account: string, nick: string, cfnick: string, skeleton: string): (State, Option<Error>) {
    if Lookup(s.nickToAccount, cfnick) != "" || Lookup(s.skeletonToAccount, skeleton) != "" then (s, Some(NicknameReserved))
    else if cfnick in s.accounts then (s, Some(NicknameReserved))
    else if |NicksOf(s, account)| >= config.additionalNickLimit then (s, Some(TooManyNicks))
    else
      (s.(nicks := s.nicks[account := NicksOf(s, account) + [nick]],
          nickToAccount := s.nickToAccount[cfnick := account], skeletonToAccount := s.skeletonToAccount[skeleton := account]), None)
  }

  function Drop(config: Config, s: State, account: string, cfnick: string, skeleton: string): (State, Option<Error>) {
    var nicks := NicksOf(s, account);
    (s.(nicks := s.nicks[account := WithoutNick(config.fold, nicks, cfnick)],
        nickToAccount := s.nickToAccount - {cfnick},
        skeletonToAccount := s.skeletonToAccount - {DroppedSkeleton(config.fold, nicks, cfnick, skeleton)}), None)
  }

  /** The datastore drops an account that has not been verified in time, with its name unless that has been
      changed, and without its additional nicks. */
  function Expire(s: State, cf: string): State
    requires cf in s.accounts && !s.accounts[cf].verified
  {
    s.(accounts := s.accounts - {cf}, names := if s.accounts[cf].nameExpires then s.names - {cf} else s.names)
  }

  // ---------------------------------------------------------------- what each operation answers and changes

  /** Registering stores a new account that is not verified, if nothing speaks against the request, the name is
      not reserved, and there neither is nor was an account of that name. */
  lemma {:induction false} RegisterOutcome(config: Config, s: State, name: string, request: Request)
    ensures var (s', error) := Register(config, s, name, request);
            var cf, skeleton := config.fold.casefold(name), config.fold.skeleton(name);
            && error == (if cf.None? || skeleton.None? || name == "" || name == "*" then Some(AccountCreation)
                         else if request.isRestricted then Some(AlreadyRegistered)
                         else if !request.isAllowed then Some(FeatureDisabled)
                         else if request.isLoggedIn then Some(AlreadyLoggedIn)
                         else if request.isThrottled then Some(LimitExceeded)
                         else if !request.mayHoldNick then Some(MustHoldNick)
                         else if request.isGuestNick then Some(AlreadyRegistered)
                         else if !request.isPassphraseFine then Some(BadPassphrase)
                         else if NickToAccount(config, s, name) != "" then Some(NameReserved)
                         else if cf.value in s.unregistered then Some(AlreadyUnregistered)
                         else if cf.value in s.accounts then Some(AlreadyRegistered)
                         else None)
            && (error.Some? ==> s' == s)
            && (error.None? ==>
                  && cf.value !in s.accounts && s'.accounts.Keys == s.accounts.Keys + {cf.value}
                  && s'.accounts[cf.value] == Account(false, true) && s'.names == s.names[cf.value := name]
                  && (forall other :: other in s.accounts ==> s'.accounts[other] == s.accounts[other])
                  && s'.nicks == s.nicks && s'.unregistered == s.unregistered
                  && s'.nickToAccount == s.nickToAccount && s'.skeletonToAccount == s.skeletonToAccount)
  {
  }

  /** Verifying needs a name that is stored and not confusable, an account that is not verified yet, and the
      right code; it verifies that account and no other. */
  lemma {:induction false} VerifyOutcome(config: Config, s: State, name: string, mayVerify: bool, renamed: Option<string>)
    ensures var (s', error) := Verify(config, s, name, mayVerify, renamed);
            var cf := config.fold.casefold(name);
            && error == (if cf.None? || name == "" || name == "*" then Some(VerificationFailed)
                         else if cf.value !in s.names || config.fold.skeleton(s.names[cf.value]).None? then Some(DoesNotExist)
                         else if config.fold.skeleton(s.names[cf.value]).value in s.skeletonToAccount then Some(ConfusableIdentifier)
                         else if cf.value !in s.accounts then Some(DoesNotExist)
                         else if s.accounts[cf.value].verified then Some(AlreadyVerified)
                         else if !mayVerify then Some(InvalidCode)
                         else None)
            && (error.Some? && renamed.None? ==> s' == s)
            && s'.names == (if renamed.Some? && ReadName(config, s, name).Ok? then s.names[cf.value := renamed.value] else s.names)
            && s'.accounts.Keys == s.accounts.Keys && s'.nicks == s.nicks && s'.unregistered == s.unregistered
            && (forall other :: other in s.accounts ==>
                  (s'.accounts[other].verified <==> s.accounts[other].verified || (error.None? && cf == Some(other))))
            && (error.Some? ==> s'.nickToAccount == s.nickToAccount && s'.skeletonToAccount == s.skeletonToAccount)
            && (error.None? ==>
                  && s'.nickToAccount == s.nickToAccount[cf.value := cf.value]
                  && s'.skeletonToAccount == s.skeletonToAccount[config.fold.skeleton(s.names[cf.value]).value := cf.value])
  {
  }

  lemma {:induction false} CommitOutcome(s: State, v: Verification, mayVerify: bool)
    ensures var (s', error) := Commit(s, v, mayVerify);
            && (error.None? <==> v.cf in s.accounts && !s.accounts[v.cf].verified && mayVerify)
            && (error.Some? ==> s' == s)
            && s'.accounts.Keys == s.accounts.Keys
            && (forall other :: other in s.accounts ==>
                  (s'.accounts[other].verified <==> s.accounts[other].verified || (error.None? && v.cf == other)))
  {
  }

  /** Rename stores the name, from then on without a time limit; an account that expires takes its name along
      exactly if that has one. */
  lemma {:induction false} NameOutcome(s: State, cf: string, newName: string)
    ensures var s' := StoreName(s, cf, newName);
            && s'.names == s.names[cf := newName] && s'.accounts.Keys == s.accounts.Keys
            && (forall other :: other in s.accounts ==>
                  && s'.accounts[other].verified == s.accounts[other].verified
                  && (s'.accounts[other].nameExpires <==> s.accounts[other].nameExpires && other != cf))
    ensures cf in s.accounts && !s.accounts[cf].verified ==>
              var s' := Expire(s, cf);
              && s'.accounts == s.accounts - {cf} && s'.nicks == s.nicks && s'.unregistered == s.unregistered
              && s'.names == (if s.accounts[cf].nameExpires then s.names - {cf} else s.names)
              && s'.nickToAccount == s.nickToAccount && s'.skeletonToAccount == s.skeletonToAccount
  {
  }

  /** Who may reserve which nick, up to the limit, and who may drop which. */
  lemma {:induction false} SetNickReservedOutcome(config: Config, s: State, account: string, nick: string, saUnreserve: bool, reserve: bool)
    ensures var (s', error) := SetNickReserved(config, s, account, nick, saUnreserve, reserve);
            var cf, skeleton := config.fold.casefold(nick), config.fold.skeleton(nick);
            && error == (if cf.None? || skeleton.None? || cf == Some("") || (reserve && saUnreserve) then Some(ReservationFailed)
                         else if saUnreserve && Lookup(s.nickToAccount, cf.value) == "" then None
                         else if account == "" then Some(NotLoggedIn)
                         else if reserve && Lookup(s.nickToAccount, cf.value) != "" then Some(NicknameReserved)
                         else if reserve && Lookup(s.skeletonToAccount, skeleton.value) != "" then Some(NicknameReserved)
                         else if reserve && cf.value in s.accounts then Some(NicknameReserved)
                         else if reserve && |NicksOf(s, account)| >= config.additionalNickLimit then Some(TooManyNicks)
                         else if !reserve && !saUnreserve && Lookup(s.nickToAccount, cf.value) != account then Some(NicknameReserved)
                         else if !reserve && cf.value == account then Some(CantDropPrimaryNick)
                         else None)
            && s'.accounts == s.accounts && s'.names == s.names && s'.unregistered == s.unregistered
            && (error.Some? || (saUnreserve && Lookup(s.nickToAccount, cf.value) == "") ==> s' == s)
            && (error.None? && reserve ==>
                  && s'.nicks == s.nicks[account := NicksOf(s, account) + [nick]]
                  && s'.nickToAccount == s.nickToAccount[cf.value := account]
                  && s'.skeletonToAccount == s.skeletonToAccount[skeleton.value := account])
            && (error.None? && !reserve && Lookup(s.nickToAccount, cf.value) != "" ==>
                  && s'.nickToAccount == s.nickToAccount - {cf.value}
                  && (forall other :: other != account ==> NicksOf(s', other) == NicksOf(s, other)))
  {
  }

  /** Dropping leaves exactly the nicks that fold to something else. */
  lemma {:induction false} DropOutcome(config: Config, s: State, account: string, cfnick: string, skeleton: string, nick: string)
    ensures nick in NicksOf(Drop(config, s, account, cfnick, skeleton).0, account) <==>
            nick in NicksOf(s, account) && config.fold.casefold(nick) != Some(cfnick)
  {
    WithoutNickHas(config.fold, NicksOf(s, account), cfnick, nick);
  }

  // ---------------------------------------------------------------- what a rebuild reserves

  /** A reserved name: the name of a verified account, an additional nick, or the name of an unregistered
      account. */
  datatype Item = Primary(account: string) | Additional(account: string, nick: string) | Former(account: string)

  predicate Holds(config: Config, s: State, item: Item) {
    match item
    case Primary(account) => account in s.accounts && s.accounts[account].verified
    case Additional(account, nick) => account in s.accounts && nick in NicksOf(s, account)
    case Former(account) => config.strict && account in s.unregistered
  }

  function NameOf(config: Config, s: State, item: Item): string
    requires Holds(config, s, item)
  {
    match item
    case Primary(account) => Lookup(s.names, account)
    case Additional(_, nick) => nick
    case Former(account) => s.unregistered[account]
  }

  function OrEmpty(name: Option<string>): string {
    if name.Some? then name.value else ""
  }

  /** The key of an item in nickToAccount, if it is reserved at all. */
  function Cf(config: Config, s: State, item: Item): Option<string> {
    if !Holds(config, s, item) then None
    else Some(if item.Additional? then OrEmpty(config.fold.casefold(item.nick)) else item.account)
  }

  /** Its key in skeletonToAccount. */
  function Sk(config: Config, s: State, item: Item): Option<string> {
    if !Holds(config, s, item) || (item.Primary? && item.account !in s.names) then None
    else Some(OrEmpty(config.fold.skeleton(NameOf(config, s, item))))
  }

  type Keys = Item -> Option<string>

  ghost function Cfs(config: Config, s: State): Keys { item => Cf(config, s, item) }

  ghost function Sks(config: Config, s: State): Keys { item => Sk(config, s, item) }

  /** No two items have the same key. */
  ghost predicate OwnedOnce(key: Keys) {
    forall a, b :: key(a).Some? && key(a) == key(b) ==> a == b
  }

  /** The index leads from the key of every reserved item to its account, and has no other keys. */
  ghost predicate IsIndexOf(index: map<string, string>, key: Keys) {
    && (forall item :: key(item).Some? ==> key(item).value in index && index[key(item).value] == item.account)
    && (forall k :: k in index ==> exists item :: key(item) == Some(k))
  }

  /** The cache is what buildNickToAccountIndex would give. */
  ghost predicate Synced(config: Config, s: State) {
    IsIndexOf(s.nickToAccount, Cfs(config, s)) && IsIndexOf(s.skeletonToAccount, Sks(config, s))
  }

  ghost predicate AccountInv(config: Config, s: State, cf: string)
    requires cf in s.accounts
  {
    var account := s.accounts[cf];
    && cf != "" && cf !in s.unregistered && cf in s.names
    && (!account.verified ==> cf !in s.nickToAccount)
    && (forall nick :: nick in NicksOf(s, cf) ==> config.fold.casefold(nick).Some?)
  }

  /** Folded nicks and skeletons are owned once, the name of an unverified account is not in the cache, and
      there are no additional nicks without an account. */
  ghost predicate StoreInv(config: Config, s: State) {
    && OwnedOnce(Cfs(config, s)) && OwnedOnce(Sks(config, s))
    && (forall cf :: cf in s.accounts ==> AccountInv(config, s, cf))
    && (forall cf :: cf in s.unregistered ==> cf != "")
    && (forall cf :: cf !in s.accounts ==> NicksOf(s, cf) == [])
  }

  ghost predicate Inv(config: Config, s: State) {
    StoreInv(config, s) && Synced(config, s)
  }

  // ---------------------------------------------------------------- indices in general

  /** There is only one index, in whatever order the datastore is read. */
  lemma {:induction false} IndexIsUnique(index: map<string, string>, index': map<string, string>, key: Keys)
    requires IsIndexOf(index, key) && IsIndexOf(index', key)
    ensures index == index'
  {
    forall k | k in index ensures k in index' && index'[k] == index[k] {
      var item :| key(item) == Some(k);
    }
    forall k | k in index' ensures k in index {
      var item :| key(item) == Some(k);
    }
  }

  lemma {:induction false} SameIndex(index: map<string, string>, key: Keys, key': Keys)
    requires OwnedOnce(key) && IsIndexOf(index, key) && forall item :: key'(item) == key(item)
    ensures OwnedOnce(key') && IsIndexOf(index, key')
  {
  }

  lemma {:induction false} AddedToIndex(index: map<string, string>, key: Keys, key': Keys, item: Item, k: string)
    requires OwnedOnce(key) && IsIndexOf(index, key) && k !in index
    requires key(item).None? && key'(item) == Some(k) && forall other :: other != item ==> key'(other) == key(other)
    ensures OwnedOnce(key') && IsIndexOf(index[k := item.account], key')
  {
    forall c | c in index[k := item.account] ensures exists other :: key'(other) == Some(c) {
      if c == k {
        assert key'(item) == Some(c);
      } else {
        var other :| key(other) == Some(c);
        assert key'(other) == Some(c);
      }
    }
  }

  /** Deleting `deleted` from the index when the items with keys in `gone` go is right exactly if no other
      entry is hit and none of them is missed. */
  lemma {:induction false} DeletedFromIndex(index: map<string, string>, key: Keys, key': Keys, gone: set<string>, deleted: set<string>)
    requires OwnedOnce(key) && IsIndexOf(index, key)
    requires forall item :: key'(item) == if key(item).Some? && key(item).value in gone then None else key(item)
    ensures OwnedOnce(key')
    ensures IsIndexOf(index - deleted, key') <==> forall k :: k in index ==> (k in deleted <==> k in gone)
  {
    var index' := index - deleted;
    if forall k :: k in index ==> (k in deleted <==> k in gone) {
      forall k | k in index' ensures exists item :: key'(item) == Some(k) {
        var item :| key(item) == Some(k);
        assert key'(item) == Some(k);
      }
    }
    if IsIndexOf(index', key') {
      forall k | k in index ensures k in deleted <==> k in gone {
        var item :| key(item) == Some(k);
        if k in gone {
          assert forall other :: key'(other) != Some(k);
        } else {
          assert key'(item) == Some(k);
        }
      }
    }
  }

  // ---------------------------------------------------------------- what keeps the cache right

  /** Nothing that is reserved changes, and neither does the cache. */
  lemma {:induction false} SameItems(config: Config, s: State, s': State)
    requires Inv(config, s) && s'.nickToAccount == s.nickToAccount && s'.skeletonToAccount == s.skeletonToAccount
    requires forall item :: Cf(config, s', item) == Cf(config, s, item) && Sk(config, s', item) == Sk(config, s, item)
    ensures OwnedOnce(Cfs(config, s')) && OwnedOnce(Sks(config, s')) && Synced(config, s')
  {
    SameIndex(s.nickToAccount, Cfs(config, s), Cfs(config, s'));
    SameIndex(s.skeletonToAccount, Sks(config, s), Sks(config, s'));
  }

  /** The same names are reserved, under the same keys. */
  ghost predicate SameReserved(config: Config, s: State, s': State) {
    forall item :: Cf(config, s', item) == Cf(config, s, item) && Sk(config, s', item) == Sk(config, s, item)
  }

  /** Exactly this name is new, and neither of its keys was reserved. */
  ghost predicate OneMoreReserved(config: Config, s: State, s': State, item: Item) {
    && Cf(config, s, item) == Sk(config, s, item) == None
    && Cf(config, s', item).Some? && Cf(config, s', item).value !in s.nickToAccount
    && Sk(config, s', item).Some? && Sk(config, s', item).value !in s.skeletonToAccount
    && forall other :: other != item ==>
         Cf(config, s', other) == Cf(config, s, other) && Sk(config, s', other) == Sk(config, s, other)
  }

  /** Exactly this name is no longer reserved. */
  ghost predicate OneLessReserved(config: Config, s: State, s': State, item: Item) {
    && Holds(config, s, item) && !Holds(config, s', item)
    && forall other :: other != item ==>
         Cf(config, s', other) == Cf(config, s, other) && Sk(config, s', other) == Sk(config, s, other)
  }

  /** Registering reserves nothing yet. */
  lemma {:induction false} RegisterKeepsInv(config: Config, s: State, name: string, request: Request)
    requires Inv(config, s) && config.fold.casefold(name) != Some("")
    ensures Inv(config, Register(config, s, name, request).0) && SameReserved(config, s, Register(config, s, name, request).0)
  {
    var (s', error) := Register(config, s, name, request);
    if error == None {
      var cf := config.fold.casefold(name).value;
      NickIsFree(config, s, cf);
      RegisteredItems(config, s, s', cf, name);
      SameItems(config, s, s');
      RegisteredKeepsAccounts(config, s, s', cf, name);
      assert forall c :: NicksOf(s', c) == NicksOf(s, c);
    }
  }

  lemma {:induction false} RegisteredItems(config: Config, s: State, s': State, cf: string, name: string)
    requires cf !in s.accounts && NicksOf(s, cf) == []
    requires s' == s.(accounts := s.accounts[cf := Account(false, true)], names := s.names[cf := name])
    ensures forall item :: Cf(config, s', item) == Cf(config, s, item) && Sk(config, s', item) == Sk(config, s, item)
  {
  }

  lemma {:induction false} RegisteredKeepsAccounts(config: Config, s: State, s': State, cf: string, name: string)
    requires forall c :: c in s.accounts ==> AccountInv(config, s, c)
    requires cf != "" && cf !in s.unregistered && cf !in s.nickToAccount && NicksOf(s, cf) == []
    requires s' == s.(accounts := s.accounts[cf := Account(false, true)], names := s.names[cf := name])
    ensures forall c :: c in s'.accounts ==> AccountInv(config, s', c)
  {
    forall c | c in s'.accounts ensures AccountInv(config, s', c) {
      if c != cf { assert AccountInv(config, s, c); }
    }
  }

  /** The empty string is never the owner of a nick. */
  lemma {:induction false} NickIsFree(config: Config, s: State, cfnick: string)
    requires Inv(config, s)
    ensures Lookup(s.nickToAccount, cfnick) == "" <==> cfnick !in s.nickToAccount
  {
    if cfnick in s.nickToAccount {
      var item :| Cfs(config, s)(item) == Some(cfnick);
      assert Holds(config, s, item);
      OwnerIsNamed(config, s, item);
    }
  }

  lemma {:induction false} SkeletonIsFree(config: Config, s: State, skeleton: string)
    requires Inv(config, s)
    ensures Lookup(s.skeletonToAccount, skeleton) == "" <==> skeleton !in s.skeletonToAccount
  {
    if skeleton in s.skeletonToAccount {
      var item :| Sks(config, s)(item) == Some(skeleton);
      assert Holds(config, s, item);
      OwnerIsNamed(config, s, item);
    }
  }

  /** Some reserved name has this nick as its key, or this skeleton. */
  ghost predicate IsReserved(config: Config, s: State, cfnick: string, skeleton: string) {
    exists item :: Cf(config, s, item) == Some(cfnick) || Sk(config, s, item) == Some(skeleton)
  }

  /** NickToAccount finds an owner exactly if the nick or its skeleton is reserved: the owner of the nick,
      and only if the nick itself is free that of the skeleton. */
  lemma {:induction false} NickToAccountFindsOwner(config: Config, s: State, nick: string)
    requires Inv(config, s)
    ensures var cfnick, skeleton, owner := config.fold.casefold(nick), config.fold.skeleton(nick), NickToAccount(config, s, nick);
            if cfnick.None? || skeleton.None? then owner == ""
            else
              && (owner != "" <==> IsReserved(config, s, cfnick.value, skeleton.value))
              && (forall item :: Cf(config, s, item) == cfnick ==> owner == item.account)
              && (forall item :: Sk(config, s, item) == skeleton && (forall other :: Cf(config, s, other) != cfnick) ==>
                    owner == item.account)
  {
    var cfnick, skeleton := config.fold.casefold(nick), config.fold.skeleton(nick);
    if cfnick.Some? && skeleton.Some? {
      var cfs, sks := Cfs(config, s), Sks(config, s);
      NickIsFree(config, s, cfnick.value);
      SkeletonIsFree(config, s, skeleton.value);
      forall item | Cf(config, s, item) == cfnick || Sk(config, s, item) == skeleton
        ensures cfs(item) == Cf(config, s, item) && sks(item) == Sk(config, s, item) && item.account != ""
      {
        OwnerIsNamed(config, s, item);
      }
      if cfnick.value in s.nickToAccount {
        var item :| cfs(item) == cfnick;
        assert Cf(config, s, item) == cfnick;
      }
      if skeleton.value in s.skeletonToAccount {
        var item :| sks(item) == skeleton;
        assert Sk(config, s, item) == skeleton;
      }
    }
  }

  lemma {:induction false} OwnerIsNamed(config: Config, s: State, item: Item)
    requires Inv(config, s) && Holds(config, s, item)
    ensures item.account != ""
  {
    if item.account in s.accounts {
      assert AccountInv(config, s, item.account);
    }
  }

  /** An account that expires had nothing in the cache, exactly if it has no additional nicks. */
  lemma {:induction false} ExpireIsRightExactly(config: Config, s: State, cf: string)
    requires Inv(config, s) && cf in s.accounts && !s.accounts[cf].verified
    ensures Synced(config, Expire(s, cf)) <==> NicksOf(s, cf) == []
    ensures NicksOf(s, cf) == [] ==> Inv(config, Expire(s, cf)) && SameReserved(config, s, Expire(s, cf)) && cf !in s.nickToAccount
  {
    assert AccountInv(config, s, cf);
    if NicksOf(s, cf) == [] {
      ExpiredItems(config, s, cf);
      SameItems(config, s, Expire(s, cf));
      forall c | c in Expire(s, cf).accounts ensures AccountInv(config, Expire(s, cf), c) {
        assert AccountInv(config, s, c);
      }
      assert forall c :: NicksOf(Expire(s, cf), c) == NicksOf(s, c);
    } else {
      ExpiredNickStays(config, s, cf);
    }
  }

  lemma {:induction false} ExpiredItems(config: Config, s: State, cf: string)
    requires cf in s.accounts && !s.accounts[cf].verified && NicksOf(s, cf) == []
    ensures SameReserved(config, s, Expire(s, cf))
  {
  }

  lemma {:induction false} ExpiredNickStays(config: Config, s: State, cf: string)
    requires Inv(config, s) && cf in s.accounts && !s.accounts[cf].verified && NicksOf(s, cf) != []
    ensures !Synced(config, Expire(s, cf))
  {
    var s', item := Expire(s, cf), Additional(cf, NicksOf(s, cf)[0]);
    assert Holds(config, s, item);
    var key := Cfs(config, s)(item);
    forall other ensures Cfs(config, s')(other) != key {
      assert Cfs(config, s')(other).Some? ==> Cfs(config, s')(other) == Cfs(config, s)(other) && other.account != cf;
    }
  }

  /** One item is new, and so are its keys in the cache. */
  lemma {:induction false} ItemAdded(config: Config, s: State, s': State, item: Item, cf: string, sk: string)
    requires Inv(config, s) && !Holds(config, s, item) && cf !in s.nickToAccount && sk !in s.skeletonToAccount
    requires forall other :: Cf(config, s', other) == if other == item then Some(cf) else Cf(config, s, other)
    requires forall other :: Sk(config, s', other) == if other == item then Some(sk) else Sk(config, s, other)
    requires s'.nickToAccount == s.nickToAccount[cf := item.account]
    requires s'.skeletonToAccount == s.skeletonToAccount[sk := item.account]
    ensures OwnedOnce(Cfs(config, s')) && OwnedOnce(Sks(config, s')) && Synced(config, s')
  {
    AddedToIndex(s.nickToAccount, Cfs(config, s), Cfs(config, s'), item, cf);
    AddedToIndex(s.skeletonToAccount, Sks(config, s), Sks(config, s'), item, sk);
  }

  lemma {:induction false} ReadNameFinds(config: Config, s: State, name: string)
    requires Inv(config, s)
    ensures var read := ReadName(config, s, name);
            && (read.Ok? ==>
                  && config.fold.casefold(name) == Some(read.value.cf) && read.value.cf in s.names
                  && config.fold.skeleton(s.names[read.value.cf]) == Some(read.value.skeleton)
                  && read.value.skeleton !in s.skeletonToAccount
                  && forall item :: Sk(config, s, item) != Some(read.value.skeleton))
  {
    var read := ReadName(config, s, name);
    if read.Ok? {
      forall item ensures Sk(config, s, item) != Some(read.value.skeleton) {
        assert Sks(config, s)(item) == Sk(config, s, item);
      }
    }
  }

  /** The name of an account that is being verified is the one that was read. */
  predicate HasName(config: Config, s: State, v: Verification) {
    v.cf in s.names && OrEmpty(config.fold.skeleton(s.names[v.cf])) == v.skeleton
  }

  /** Verifying reserves exactly the name of the account, and is right exactly if it is refused or the name
      still has the skeleton that was read. */
  lemma {:induction false} CommitIsRightExactly(config: Config, s: State, v: Verification, mayVerify: bool)
    requires Inv(config, s) && v.skeleton !in s.skeletonToAccount
    ensures var (s', error) := Commit(s, v, mayVerify);
            && (Synced(config, s') <==> error.Some? || HasName(config, s, v))
            && (error.Some? ==> s' == s)
            && (error.None? && HasName(config, s, v) ==> Inv(config, s') && OneMoreReserved(config, s, s', Primary(v.cf)))
  {
    var (s', error) := Commit(s, v, mayVerify);
    if error == None {
      var cf := v.cf;
      assert AccountInv(config, s, cf);
      VerifiedItems(config, s, s', cf);
      if HasName(config, s, v) {
        ItemAdded(config, s, s', Primary(cf), cf, v.skeleton);
        VerifiedKeepsAccounts(config, s, s', cf);
        assert forall c :: NicksOf(s', c) == NicksOf(s, c);
      } else {
        OtherSkeletonIsCached(config, s, v, s');
      }
    }
  }

  lemma {:induction false} OtherSkeletonIsCached(config: Config, s: State, v: Verification, s': State)
    requires Inv(config, s) && v.skeleton !in s.skeletonToAccount && v.skeleton in s'.skeletonToAccount
    requires Sk(config, s', Primary(v.cf)) != Some(v.skeleton)
    requires forall other :: other != Primary(v.cf) ==> Sk(config, s', other) == Sk(config, s, other)
    ensures !Synced(config, s')
  {
    forall item ensures Sks(config, s')(item) != Some(v.skeleton) {
      assert item == Primary(v.cf) || Sks(config, s')(item) == Sks(config, s)(item);
    }
  }

  lemma {:induction false} VerifiedItems(config: Config, s: State, s': State, cf: string)
    requires cf in s.accounts && !s.accounts[cf].verified && cf in s.names
    requires s'.accounts == s.accounts[cf := Account(true, false)]
    requires s'.names == s.names && s'.nicks == s.nicks && s'.unregistered == s.unregistered
    ensures !Holds(config, s, Primary(cf)) && Cf(config, s', Primary(cf)) == Some(cf)
    ensures Sk(config, s', Primary(cf)) == Some(OrEmpty(config.fold.skeleton(s.names[cf])))
    ensures forall other :: other != Primary(cf) ==>
              Cf(config, s', other) == Cf(config, s, other) && Sk(config, s', other) == Sk(config, s, other)
  {
  }

  lemma {:induction false} VerifiedKeepsAccounts(config: Config, s: State, s': State, cf: string)
    requires (forall c :: c in s.accounts ==> AccountInv(config, s, c)) && cf in s.accounts
    requires s'.accounts == s.accounts[cf := Account(true, false)]
    requires s'.names == s.names && s'.nicks == s.nicks && s'.unregistered == s.unregistered
    requires s'.nickToAccount == s.nickToAccount[cf := cf]
    ensures forall c :: c in s'.accounts ==> AccountInv(config, s', c)
  {
    forall c | c in s'.accounts ensures AccountInv(config, s', c) {
      assert AccountInv(config, s, c);
    }
  }

  lemma {:induction false} ReserveKeepsInv(config: Config, s: State, account: string, nick: string)
    requires Inv(config, s) && account in s.accounts && SetNickReserved(config, s, account, nick, false, true).1 == None
    ensures var s' := SetNickReserved(config, s, account, nick, false, true).0;
            Inv(config, s') && OneMoreReserved(config, s, s', Additional(account, nick))
  {
    var s', cfnick := SetNickReserved(config, s, account, nick, false, true).0, config.fold.casefold(nick).value;
    NickIsFree(config, s, cfnick);
    SkeletonIsFree(config, s, config.fold.skeleton(nick).value);
    assert Holds(config, s, Additional(account, nick)) ==> Cfs(config, s)(Additional(account, nick)) == Some(cfnick);
    ReservedItems(config, s, s', account, nick);
    ItemAdded(config, s, s', Additional(account, nick), cfnick, config.fold.skeleton(nick).value);
    ReservedKeepsAccounts(config, s, s', account, nick);
  }

  /** Without the account no rebuild has the nick. */
  lemma {:induction false} ReserveWithoutAccount(config: Config, s: State, account: string, nick: string)
    requires Inv(config, s) && account !in s.accounts && SetNickReserved(config, s, account, nick, false, true).1 == None
    ensures !Synced(config, SetNickReserved(config, s, account, nick, false, true).0)
  {
    var s', cfnick := SetNickReserved(config, s, account, nick, false, true).0, config.fold.casefold(nick).value;
    NickIsFree(config, s, cfnick);
    ReservedItems(config, s, s', account, nick);
    forall item ensures Cfs(config, s')(item) != Some(cfnick) {
      assert Cfs(config, s')(item) == Cfs(config, s)(item);
    }
  }

  /** Reserving adds exactly one nick, or changes nothing; it is right exactly if it is refused or the account
      that the client is logged into is still there. */
  lemma {:induction false} ReserveIsRightExactly(config: Config, s: State, account: string, nick: string)
    requires Inv(config, s)
    ensures var (s', error) := SetNickReserved(config, s, account, nick, false, true);
            && (Synced(config, s') <==> error.Some? || account in s.accounts)
            && (error.Some? ==> s' == s)
            && (error.None? && account in s.accounts ==>
                  Inv(config, s') && OneMoreReserved(config, s, s', Additional(account, nick)))
  {
    if SetNickReserved(config, s, account, nick, false, true).1 == None {
      if account in s.accounts {
        ReserveKeepsInv(config, s, account, nick);
      } else {
        ReserveWithoutAccount(config, s, account, nick);
      }
    }
  }

  lemma {:induction false} ReservedItems(config: Config, s: State, s': State, account: string, nick: string)
    requires config.fold.casefold(nick).Some? && config.fold.skeleton(nick).Some?
    requires s'.nicks == s.nicks[account := NicksOf(s, account) + [nick]]
    requires s'.accounts == s.accounts && s'.names == s.names && s'.unregistered == s.unregistered
    ensures var item := Additional(account, nick);
            && (account in s.accounts ==>
                  Cf(config, s', item) == config.fold.casefold(nick) && Sk(config, s', item) == config.fold.skeleton(nick))
            && forall other :: other != item || account !in s.accounts ==>
                 Cf(config, s', other) == Cf(config, s, other) && Sk(config, s', other) == Sk(config, s, other)
  {
  }

  lemma {:induction false} ReservedKeepsAccounts(config: Config, s: State, s': State, account: string, nick: string)
    requires (forall c :: c in s.accounts ==> AccountInv(config, s, c)) && account in s.accounts
    requires config.fold.casefold(nick).Some? && config.fold.casefold(nick).value !in s.accounts
    requires s'.nicks == s.nicks[account := NicksOf(s, account) + [nick]]
    requires s'.accounts == s.accounts && s'.names == s.names && s'.unregistered == s.unregistered
    requires s'.nickToAccount == s.nickToAccount[config.fold.casefold(nick).value := account]
    ensures forall c :: c in s'.accounts ==> AccountInv(config, s', c)
  {
    forall c | c in s'.accounts ensures AccountInv(config, s', c) {
      assert AccountInv(config, s, c);
    }
  }

  lemma {:induction false} WithoutNickHas(fold: Folding, nicks: seq<string>, cfnick: string, nick: string)
    ensures nick in WithoutNick(fold, nicks, cfnick) <==> nick in nicks && fold.casefold(nick) != Some(cfnick)
    decreases nicks
  {
    if nicks != [] {
      WithoutNickHas(fold, nicks[1..], cfnick, nick);
      assert nicks == [nicks[0]] + nicks[1..];
    }
  }

  /** The skeleton is that of the only nick that is dropped. */
  lemma {:induction false} DroppedSkeletonIs(fold: Folding, nicks: seq<string>, cfnick: string, given: string, nick: string)
    requires forall n :: n in nicks && fold.casefold(n) == Some(cfnick) ==> n == nick
    ensures DroppedSkeleton(fold, nicks, cfnick, given) ==
            if nick in nicks && fold.casefold(nick) == Some(cfnick) then OrEmpty(fold.skeleton(nick)) else given
    decreases nicks
  {
    if nicks != [] {
      var first := if fold.casefold(nicks[0]) != Some(cfnick) then given else OrEmpty(fold.skeleton(nicks[0]));
      assert nicks[0] in nicks && forall n :: n in nicks[1..] ==> n in nicks;
      assert nicks == [nicks[0]] + nicks[1..];
      DroppedSkeletonIs(fold, nicks[1..], cfnick, first, nick);
    }
  }

  /** The additional nick of an account behind a key of the cache. */
  lemma {:induction false} OwnNickBehind(config: Config, s: State, account: string, cfnick: string) returns (item: Item)
    requires Inv(config, s) && cfnick in s.nickToAccount && s.nickToAccount[cfnick] == account && cfnick != account
    ensures item.Additional? && item.account == account && Holds(config, s, item) && config.fold.casefold(item.nick) == Some(cfnick)
  {
    item :| Cfs(config, s)(item) == Some(cfnick);
    assert Holds(config, s, item);
    if item.account in s.accounts { assert AccountInv(config, s, item.account); }
  }

  /** Dropping an own nick takes exactly that nick out of the datastore and out of the cache. */
  lemma {:induction false} DropKeepsInv(config: Config, s: State, account: string, cfnick: string, skeleton: string)
    requires Inv(config, s) && cfnick in s.nickToAccount && s.nickToAccount[cfnick] == account && cfnick != account
    ensures Inv(config, Drop(config, s, account, cfnick, skeleton).0)
    ensures exists nick :: config.fold.casefold(nick) == Some(cfnick) &&
              OneLessReserved(config, s, Drop(config, s, account, cfnick, skeleton).0, Additional(account, nick))
  {
    var s' := Drop(config, s, account, cfnick, skeleton).0;
    var item := OwnNickBehind(config, s, account, cfnick);
    OnlyNickWith(config, s, item, cfnick);
    DroppedSkeletonIs(config.fold, NicksOf(s, account), cfnick, skeleton, item.nick);
    DroppedItems(config, s, s', item, cfnick);
    ItemRemoved(config, s, s', item);
    DroppedKeepsAccounts(config, s, s', account, cfnick);
    assert item == Additional(account, item.nick) && OneLessReserved(config, s, s', item);
  }

  lemma {:induction false} OnlyNickWith(config: Config, s: State, item: Item, cfnick: string)
    requires Inv(config, s) && item.Additional? && Holds(config, s, item) && config.fold.casefold(item.nick) == Some(cfnick)
    ensures forall n :: n in NicksOf(s, item.account) && config.fold.casefold(n) == Some(cfnick) ==> n == item.nick
  {
    forall n | n in NicksOf(s, item.account) && config.fold.casefold(n) == Some(cfnick) ensures n == item.nick {
      assert Cfs(config, s)(Additional(item.account, n)) == Cfs(config, s)(item);
    }
  }

  lemma {:induction false} DroppedItems(config: Config, s: State, s': State, item: Item, cfnick: string)
    requires item.Additional? && Holds(config, s, item) && config.fold.casefold(item.nick) == Some(cfnick)
    requires forall n :: n in NicksOf(s, item.account) && config.fold.casefold(n) == Some(cfnick) ==> n == item.nick
    requires s'.nicks == s.nicks[item.account := WithoutNick(config.fold, NicksOf(s, item.account), cfnick)]
    requires s'.accounts == s.accounts && s'.names == s.names && s'.unregistered == s.unregistered
    ensures forall other :: Cf(config, s', other) == if other == item then None else Cf(config, s, other)
    ensures forall other :: Sk(config, s', other) == if other == item then None else Sk(config, s, other)
  {
    forall n ensures n in NicksOf(s', item.account) <==> n in NicksOf(s, item.account) && n != item.nick {
      WithoutNickHas(config.fold, NicksOf(s, item.account), cfnick, n);
    }
  }

  lemma {:induction false} DroppedKeepsAccounts(config: Config, s: State, s': State, account: string, cfnick: string)
    requires (forall c :: c in s.accounts ==> AccountInv(config, s, c)) && account in s.accounts
    requires s'.nicks == s.nicks[account := WithoutNick(config.fold, NicksOf(s, account), cfnick)]
    requires s'.accounts == s.accounts && s'.names == s.names && s'.unregistered == s.unregistered
    requires s'.nickToAccount == s.nickToAccount - {cfnick}
    ensures forall c :: c in s'.accounts ==> AccountInv(config, s', c)
  {
    forall c | c in s'.accounts ensures AccountInv(config, s', c) {
      assert AccountInv(config, s, c);
      if c == account {
        forall n | n in NicksOf(s', c) ensures n in NicksOf(s, c) {
          WithoutNickHas(config.fold, NicksOf(s, c), cfnick, n);
        }
      }
    }
  }

  /** One item is gone, and its keys are gone from the cache. */
  lemma {:induction false} ItemRemoved(config: Config, s: State, s': State, item: Item)
    requires Inv(config, s) && Holds(config, s, item)
    requires forall other :: Cf(config, s', other) == if other == item then None else Cf(config, s, other)
    requires forall other :: Sk(config, s', other) == if other == item then None else Sk(config, s, other)
    requires s'.nickToAccount == s.nickToAccount - {Cf(config, s, item).value}
    requires s'.skeletonToAccount == s.skeletonToAccount - {Sk(config, s, item).value}
    ensures OwnedOnce(Cfs(config, s')) && OwnedOnce(Sks(config, s')) && Synced(config, s')
  {
    var cf, sk := Cf(config, s, item).value, Sk(config, s, item).value;
    assert Cfs(config, s)(item) == Some(cf) && Sks(config, s)(item) == Some(sk);
    DeletedFromIndex(s.nickToAccount, Cfs(config, s), Cfs(config, s'), {cf}, {cf});
    DeletedFromIndex(s.skeletonToAccount, Sks(config, s), Sks(config, s'), {sk}, {sk});
  }

  /** An operator's drop looks the nick up, but then drops it from the operator's own account. The cache stays
      right exactly if the nick is not reserved, or is the operator's own, or nothing is done. */
  lemma {:induction false} OperatorDropIsRightExactlyForOwnNicks(config: Config, s: State, account: string, nick: string)
    requires Inv(config, s)
    requires config.fold.casefold(nick).Some? && config.fold.skeleton(nick).Some? && config.fold.casefold(nick) != Some("")
    ensures var cfnick := config.fold.casefold(nick).value;
            Synced(config, SetNickReserved(config, s, account, nick, true, false).0) <==>
            account == "" || cfnick !in s.nickToAccount || s.nickToAccount[cfnick] == account || cfnick == account
  {
    var cfnick, skeleton := config.fold.casefold(nick).value, config.fold.skeleton(nick).value;
    var s' := SetNickReserved(config, s, account, nick, true, false).0;
    NickIsFree(config, s, cfnick);
    if account != "" && cfnick in s.nickToAccount && cfnick != account {
      if s.nickToAccount[cfnick] == account {
        DropKeepsInv(config, s, account, cfnick, skeleton);
      } else {
        var item :| Cfs(config, s)(item) == Some(cfnick);
        assert Holds(config, s, item) && item.account != account;
        assert Cfs(config, s')(item) == Some(cfnick);
      }
    }
  }

  /** What a client drops itself belongs to an account that is there. */
  lemma {:induction false} SelfDropKeepsInv(config: Config, s: State, account: string, nick: string)
    requires Inv(config, s)
    ensures Inv(config, SetNickReserved(config, s, account, nick, false, false).0)
  {
    var (s', error) := SetNickReserved(config, s, account, nick, false, false);
    if error == None {
      NickIsFree(config, s, config.fold.casefold(nick).value);
      DropKeepsInv(config, s, account, config.fold.casefold(nick).value, config.fold.skeleton(nick).value);
    }
  }
}
