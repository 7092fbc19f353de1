/** The index of certificate fingerprints (irc/accounts.go), which is to be the inverse of the fingerprints
    listed in the credentials.

    Every database transaction is a step. Changes of credentials read them in one transaction and write
    them in another one, which checks that they are still the same; Unregister deletes the account in one
    transaction and its index entries one by one, and holds serialCacheUpdateMutex, as do Register and
    Verify. Credentials are equal exactly if their serialized forms are. */
module CertfpIndex {
  import opened Common

  type Fp = nat            // a normalized fingerprint
  type Tid = nat

  const MAX_CERTFPS: nat := 5

  /** `password` stands for the passphrase hash. */
  datatype Creds = Creds(password: Option<nat>, certfps: seq<Fp>)

  /** `expiring` has the accounts, and `expiringIndex` the fingerprints, whose credentials or index entry
      are stored with the time limit of an unverified account. */
  datatype Store = Store(existing: set<string>, verified: set<string>, creds: map<string, Creds>, index: map<Fp, string>,
                         expiring: set<string>, expiringIndex: set<Fp>)

  datatype Error =
    | DoesNotExist | CredsExternallyManaged | EmptyCredentials | Noop | LimitExceeded
    | CASFailed | CertfpAlreadyExists | AlreadyRegistered | AlreadyVerified

  datatype Edit = AddFp(fp: Fp) | RemoveFp(fp: Fp) | SetPassword(password: Option<nat>)

  // ---------------------------------------------------------------- credentials

  predicate IsEmpty(creds: Creds) {
    creds.password.None? && creds.certfps == []
  }

  function Without(certfps: seq<Fp>, fp: Fp): seq<Fp> {
    if certfps == [] then []
    else if certfps[0] == fp then Without(certfps[1..], fp)
    else [certfps[0]] + Without(certfps[1..], fp)
  }

  function Edited(creds: Creds, edit: Edit): Result<Creds, Error> {
    match edit
    case AddFp(fp) =>
      if fp in creds.certfps then Err(Noop)
      else if |creds.certfps| >= MAX_CERTFPS then Err(LimitExceeded)
      else Ok(creds.(certfps := creds.certfps + [fp]))
    case RemoveFp(fp) => if fp !in creds.certfps then Err(Noop) else Ok(creds.(certfps := Without(creds.certfps, fp)))
    case SetPassword(password) => Ok(creds.(password := password))
  }

  // ---------------------------------------------------------------- transactions

  /** First phase of addRemoveCertfp and setPassword: the new credentials. */
  function ReadAndEdit(s: Store, account: string, edit: Edit, hasPrivs: bool): Result<Creds, Error> {
    if account !in s.creds then Err(DoesNotExist)
    else if !hasPrivs && IsEmpty(s.creds[account]) then Err(CredsExternallyManaged)
    else
      var edited := Edited(s.creds[account], edit);
      if edited.Ok? && IsEmpty(edited.value) && !hasPrivs then Err(EmptyCredentials) else edited
  }

  /** Second phase: compare and swap. */
  function Commit(s: Store, account: string, edit: Edit, before: Creds, after: Creds): (Store, Option<Error>) {
    if account !in s.creds || s.creds[account] != before then (s, Some(CASFailed))
    else if edit.AddFp? && edit.fp in s.index then (s, Some(CertfpAlreadyExists))
    else
      (s.(creds := s.creds[account := after], expiring := s.expiring - {account},
          index := if edit.AddFp? then s.index[edit.fp := account] else if edit.RemoveFp? then s.index - {edit.fp} else s.index,
          expiringIndex := if edit.SetPassword? then s.expiringIndex else s.expiringIndex - {edit.fp}), None)
  }

  /** `timed`: unverified accounts have a time limit. */
  function Register(s: Store, account: string, password: Option<nat>, fp: Option<Fp>, timed: bool): (Store, Option<Error>) {
    if account in s.existing then (s, Some(AlreadyRegistered))
    else if fp.Some? && fp.value in s.index then (s, Some(CertfpAlreadyExists))
    else
      var fps := if fp.Some? then {fp.value} else {};
      (s.(existing := s.existing + {account},
          creds := s.creds[account := Creds(password, if fp.Some? then [fp.value] else [])],
          index := if fp.Some? then s.index[fp.value := account] else s.index,
          expiring := if timed then s.expiring + {account} else s.expiring - {account},
          expiringIndex := if timed then s.expiringIndex + fps else s.expiringIndex - fps), None)
  }

  /** The new index after every listed fingerprint has been stored again. */
  function Listed(index: map<Fp, string>, certfps: seq<Fp>, account: string): map<Fp, string>
    decreases certfps
  {
    if certfps == [] then index else Listed(index[certfps[0] := account], certfps[1..], account)
  }

  /** Verify stores everything again, without a time limit. */
  function Verify(s: Store, account: string): (Store, Option<Error>) {
    if account !in s.existing || account !in s.creds then (s, Some(DoesNotExist))
    else if account in s.verified then (s, Some(AlreadyVerified))
    else
      (s.(verified := s.verified + {account}, expiring := s.expiring - {account},
          index := Listed(s.index, s.creds[account].certfps, account),
          expiringIndex := s.expiringIndex - (set fp | fp in s.creds[account].certfps)), None)
  }

  /** The main transaction of Unregister. */
  function DeleteAccount(s: Store, account: string): Store {
    s.(existing := s.existing - {account}, verified := s.verified - {account}, creds := s.creds - {account},
       expiring := s.expiring - {account})
  }

  /** Unregister's transaction for one fingerprint. */
  function DeleteEntry(s: Store, account: string, fp: Fp): Store {
    if fp in s.index && s.index[fp] == account then s.(index := s.index - {fp}, expiringIndex := s.expiringIndex - {fp}) else s
  }

  /** The database drops what an unverified account stored with a time limit. */
  function Expire(s: Store, account: string): Store {
    s.(existing := s.existing - {account},
       creds := if account in s.expiring then s.creds - {account} else s.creds,
       expiring := s.expiring - {account},
       index := map fp | fp in s.index && !(s.index[fp] == account && fp in s.expiringIndex) :: s.index[fp])
  }

  // ---------------------------------------------------------------- interleavings

  datatype Thread =
    | Editing(account: string, edit: Edit, before: Creds, after: Creds)
    | Unregistering(account: string, todo: seq<Fp>)

  datatype State = State(store: Store, threads: map<Tid, Thread>)

  /** Whether unverified accounts have a time limit. */
  datatype Config = Config(timed: bool)

  datatype Action =
    | BeginEdit(t: Tid, account: string, edit: Edit, hasPrivs: bool)
    | CommitEdit(t: Tid)
    | DoRegister(account: string, password: Option<nat>, fp: Option<Fp>)
    | DoVerify(account: string)
    | BeginUnregister(t: Tid, account: string)
    | UnregisterNext(t: Tid)
    | EndUnregister(t: Tid)
    | DoExpire(account: string)

  ghost predicate MutexFree(s: State) {
    forall t :: t in s.threads ==> !s.threads[t].Unregistering?
  }

  ghost predicate Enabled(config: Config, s: State, a: Action) {
    match a
    case BeginEdit(t, _, _, _) => t !in s.threads
    case CommitEdit(t) => t in s.threads && s.threads[t].Editing?
    case DoRegister(_, _, _) => MutexFree(s)
    case DoVerify(_) => MutexFree(s)
    case BeginUnregister(t, _) => t !in s.threads && MutexFree(s)
    case UnregisterNext(t) => t in s.threads && s.threads[t].Unregistering? && s.threads[t].todo != []
    case EndUnregister(t) => t in s.threads && s.threads[t].Unregistering? && s.threads[t].todo == []
    case DoExpire(account) => config.timed && account in s.store.existing && account !in s.store.verified
  }

  ghost function Next(config: Config, s: State, a: Action): State
    requires Enabled(config, s, a)
  {
    match a
    case BeginEdit(t, account, edit, hasPrivs) =>
      var edited := ReadAndEdit(s.store, account, edit, hasPrivs);
      if edited.Err? then s else s.(threads := s.threads[t := Editing(account, edit, s.store.creds[account], edited.value)])
    case CommitEdit(t) =>
      var Editing(account, edit, before, after) := s.threads[t];
      State(Commit(s.store, account, edit, before, after).0, s.threads - {t})
    case DoRegister(account, password, fp) => s.(store := Register(s.store, account, password, fp, config.timed).0)
    case DoVerify(account) => s.(store := Verify(s.store, account).0)
    case BeginUnregister(t, account) =>
      var certfps := if account in s.store.creds then s.store.creds[account].certfps else [];
      State(DeleteAccount(s.store, account), s.threads[t := Unregistering(account, certfps)])
    case UnregisterNext(t) =>
      var Unregistering(account, todo) := s.threads[t];
      State(DeleteEntry(s.store, account, todo[0]), s.threads[t := Unregistering(account, todo[1..])])
    case EndUnregister(t) => s.(threads := s.threads - {t})
    case DoExpire(account) => s.(store := Expire(s.store, account))
  }

  ghost predicate IsRun(config: Config, s: State, actions: seq<Action>, s': State)
    decreases actions
  {
    if actions == [] then s' == s
    else Enabled(config, s, actions[0]) && IsRun(config, Next(config, s, actions[0]), actions[1..], s')
  }

  ghost predicate Init(s: State) {
    s == State(Store({}, {}, map[], map[], {}, {}), map[])
  }

  // ---------------------------------------------------------------- the invariant

  predicate NoDuplicates(certfps: seq<Fp>) {
    forall i, j :: 0 <= i < j < |certfps| ==> certfps[i] != certfps[j]
  }

  predicate Lists(creds: map<string, Creds>, account: string, fp: Fp) {
    account in creds && fp in creds[account].certfps
  }

  /** The credentials of an account are within the limit, and their fingerprints lead back to it. */
  ghost predicate CredsInv(store: Store, account: string)
    requires account in store.creds
  {
    var certfps := store.creds[account].certfps;
    && |certfps| <= MAX_CERTFPS && NoDuplicates(certfps)
    && forall fp :: fp in certfps ==> fp in store.index && store.index[fp] == account
  }

  /** An entry is listed by its account, or is about to be deleted with it. */
  ghost predicate EntryInv(s: State, fp: Fp)
    requires fp in s.store.index
  {
    || Lists(s.store.creds, s.store.index[fp], fp)
    || exists t :: t in s.threads && Deletes(s.threads[t], s.store.index[fp], fp)
  }

  predicate Deletes(pc: Thread, account: string, fp: Fp) {
    pc.Unregistering? && pc.account == account && fp in pc.todo
  }

  ghost predicate ThreadInv(s: State, t: Tid)
    requires t in s.threads
  {
    match s.threads[t]
    case Editing(_, edit, before, after) => Edited(before, edit) == Ok(after)
    case Unregistering(account, _) =>
      && account !in s.store.creds
      && forall u :: u in s.threads && s.threads[u].Unregistering? ==> u == t
  }

  /** Credentials that go with their account take all their entries along. */
  ghost predicate ExpiryInv(store: Store, account: string)
    requires account in store.creds
  {
    account in store.expiring ==>
      account !in store.verified && forall fp :: fp in store.creds[account].certfps ==> fp in store.expiringIndex
  }

  ghost predicate Inv(config: Config, s: State) {
    && s.store.existing <= s.store.creds.Keys && s.store.verified <= s.store.existing
    && (forall account :: account in s.store.creds ==> CredsInv(s.store, account) && ExpiryInv(s.store, account))
    && (forall fp :: fp in s.store.index ==> EntryInv(s, fp))
    && (forall t :: t in s.threads ==> ThreadInv(s, t))
    && (config.timed || s.store.existing == s.store.creds.Keys)
  }

  /** Every listed fingerprint leads to the account that lists it, and no account lists more than five. */
  ghost predicate LeadsBack(store: Store) {
    forall account :: account in store.creds ==>
      && |store.creds[account].certfps| <= MAX_CERTFPS
      && forall fp :: fp in store.creds[account].certfps ==> fp in store.index && store.index[fp] == account
  }

  ghost predicate NoDangling(store: Store) {
    forall fp :: fp in store.index ==> Lists(store.creds, store.index[fp], fp)
  }

  /** The index is the inverse of the credentials, but for entries that an Unregister is still deleting. */
  ghost predicate IsInverse(s: State) {
    LeadsBack(s.store) && (MutexFree(s) ==> NoDangling(s.store))
  }

  lemma {:induction false} InvIsInverse(config: Config, s: State)
    requires Inv(config, s)
    ensures IsInverse(s)
    ensures forall a, b, fp :: Lists(s.store.creds, a, fp) && Lists(s.store.creds, b, fp) ==> a == b
  {
    forall account | account in s.store.creds
      ensures |s.store.creds[account].certfps| <= MAX_CERTFPS
      ensures forall fp :: fp in s.store.creds[account].certfps ==> fp in s.store.index && s.store.index[fp] == account
    {
      assert CredsInv(s.store, account);
    }
    if MutexFree(s) {
      forall fp | fp in s.store.index ensures Lists(s.store.creds, s.store.index[fp], fp) {
        assert EntryInv(s, fp);
      }
    }
  }

  /** An account expires without its credentials, if those have been changed: their fingerprints must have no
      time limit either. Later such credentials are replaced by a registration: they must have none then. */
  predicate IsHarmless(s: State, a: Action) {
    match a
    case DoExpire(account) =>
      account in s.store.creds && account !in s.store.expiring ==>
        forall fp :: fp in s.store.creds[account].certfps ==> fp !in s.store.expiringIndex
    case DoRegister(account, _, fp) =>
      account in s.store.creds && account !in s.store.existing && !(fp.Some? && fp.value in s.store.index) ==>
        s.store.creds[account].certfps == []
    case _ => true
  }

  lemma {:induction false} WithoutHas(certfps: seq<Fp>, fp: Fp, other: Fp)
    ensures other in Without(certfps, fp) <==> other in certfps && other != fp
    ensures |Without(certfps, fp)| <= |certfps|
    decreases certfps
  {
    if certfps != [] {
      WithoutHas(certfps[1..], fp, other);
      assert certfps == [certfps[0]] + certfps[1..];
    }
  }

  lemma {:induction false} WithoutKeepsDistinct(certfps: seq<Fp>, fp: Fp)
    requires NoDuplicates(certfps)
    ensures NoDuplicates(Without(certfps, fp))
    decreases certfps
  {
    if certfps != [] {
      WithoutKeepsDistinct(certfps[1..], fp);
      WithoutHas(certfps[1..], fp, certfps[0]);
    }
  }

  /** An edit keeps the limit, and changes the list by its own fingerprint. */
  lemma {:induction false} EditedList(creds: Creds, edit: Edit)
    requires |creds.certfps| <= MAX_CERTFPS && NoDuplicates(creds.certfps) && Edited(creds, edit).Ok?
    ensures var certfps := Edited(creds, edit).value.certfps;
            && |certfps| <= MAX_CERTFPS && NoDuplicates(certfps)
            && forall fp :: fp in certfps <==> match edit
                                              case AddFp(x) => fp == x || fp in creds.certfps
                                              case RemoveFp(x) => fp in creds.certfps && fp != x
                                              case SetPassword(_) => fp in creds.certfps
  {
    if edit.RemoveFp? {
      forall fp ensures fp in Without(creds.certfps, edit.fp) <==> fp in creds.certfps && fp != edit.fp {
        WithoutHas(creds.certfps, edit.fp, fp);
      }
      WithoutHas(creds.certfps, edit.fp, 0);
      WithoutKeepsDistinct(creds.certfps, edit.fp);
    }
  }

  // ---------------------------------------------------------------- what each transaction answers and changes

  /** A new passphrase replaces the old one and leaves the fingerprints; fingerprints leave the passphrase. A
      fingerprint that is added comes last. */
  lemma {:induction false} EditedOutcome(creds: Creds, edit: Edit)
    ensures var edited := Edited(creds, edit);
            match edit
            case SetPassword(password) => edited == Ok(Creds(password, creds.certfps))
            case AddFp(fp) =>
              && (edited == Err(Noop) <==> fp in creds.certfps)
              && (edited == Err(LimitExceeded) <==> fp !in creds.certfps && |creds.certfps| >= 5)
              && (edited.Ok? <==> fp !in creds.certfps && |creds.certfps| < 5)
              && (edited.Ok? ==> edited.value == Creds(creds.password, creds.certfps + [fp]))
            case RemoveFp(fp) =>
              && (edited == Err(Noop) <==> fp !in creds.certfps) && (edited.Ok? <==> fp in creds.certfps)
              && (edited.Ok? ==> edited.value.password == creds.password && edited.value.certfps == Without(creds.certfps, fp))
  {
  }

  /** Without privileges nobody changes credentials that are empty, or makes them empty. */
  lemma {:induction false} ReadAndEditOutcome(s: Store, account: string, edit: Edit, hasPrivs: bool)
    ensures var result := ReadAndEdit(s, account, edit, hasPrivs);
            && (result == Err(DoesNotExist) <==> account !in s.creds)
            && (result == Err(CredsExternallyManaged) <==> account in s.creds && !hasPrivs && s.creds[account] == Creds(None, []))
            && (result.Ok? ==> account in s.creds && Edited(s.creds[account], edit) == result)
            && (result.Ok? && !hasPrivs ==> s.creds[account] != Creds(None, []) && result.value != Creds(None, []))
            && (account in s.creds && (hasPrivs || s.creds[account] != Creds(None, [])) ==>
                  var edited := Edited(s.creds[account], edit);
                  result == if !hasPrivs && edited == Ok(Creds(None, [])) then Err(EmptyCredentials) else edited)
  {
    EditedOutcome(if account in s.creds then s.creds[account] else Creds(None, []), edit);
  }

  /** The swap changes one account's credentials and at most one entry, if nothing has changed since the read and
      the fingerprint is not in use. */
  lemma {:induction false} CommitOutcome(s: Store, account: string, edit: Edit, before: Creds, after: Creds)
    ensures var (s', error) := Commit(s, account, edit, before, after);
            var isSame := account in s.creds && s.creds[account] == before;
            && (error == Some(CASFailed) <==> !isSame)
            && (error == Some(CertfpAlreadyExists) <==> isSame && edit.AddFp? && edit.fp in s.index)
            && (error == None <==> isSame && !(edit.AddFp? && edit.fp in s.index))
            && (error.Some? ==> s' == s)
            && (error.None? ==>
                  && s'.creds.Keys == s.creds.Keys && s'.creds[account] == after && account !in s'.expiring
                  && (forall other :: other in s.creds && other != account ==> s'.creds[other] == s.creds[other])
                  && s'.existing == s.existing && s'.verified == s.verified
                  && s'.index == (match edit
                                  case AddFp(fp) => s.index[fp := account]
                                  case RemoveFp(fp) => s.index - {fp}
                                  case SetPassword(_) => s.index)
                  && s'.expiringIndex == if edit.SetPassword? then s.expiringIndex else s.expiringIndex - {edit.fp})
  {
  }

  lemma {:induction false} RegisterOutcome(s: Store, account: string, password: Option<nat>, fp: Option<Fp>, timed: bool)
    ensures var (s', error) := Register(s, account, password, fp, timed);
            && (error == Some(AlreadyRegistered) <==> account in s.existing)
            && (error == Some(CertfpAlreadyExists) <==> account !in s.existing && fp.Some? && fp.value in s.index)
            && (error == None <==> account !in s.existing && (fp.Some? ==> fp.value !in s.index))
            && (error.Some? ==> s' == s)
            && (error.None? ==>
                  && s'.existing == s.existing + {account} && s'.verified == s.verified
                  && s'.creds == s.creds[account := Creds(password, if fp.Some? then [fp.value] else [])]
                  && s'.index == (if fp.Some? then s.index[fp.value := account] else s.index)
                  && (account in s'.expiring <==> timed) && (fp.Some? ==> (fp.value in s'.expiringIndex <==> timed)))
  {
  }

  lemma {:induction false} VerifyOutcome(s: Store, account: string)
    ensures var (s', error) := Verify(s, account);
            && (error == Some(DoesNotExist) <==> account !in s.existing || account !in s.creds)
            && (error == Some(AlreadyVerified) <==> account in s.existing && account in s.creds && account in s.verified)
            && (error.Some? ==> s' == s)
            && (error.None? ==>
                  && s'.verified == s.verified + {account} && s'.creds == s.creds && s'.existing == s.existing
                  && account !in s'.expiring
                  && (forall fp :: fp in s.creds[account].certfps ==>
                        fp !in s'.expiringIndex && fp in s'.index && s'.index[fp] == account)
                  && (forall fp :: fp !in s.creds[account].certfps ==>
                        (fp in s'.index <==> fp in s.index) && (fp in s.index ==> s'.index[fp] == s.index[fp])))
  {
    if account in s.creds {
      forall fp { ListedLeadsBack(s.index, s.creds[account].certfps, account, fp); }
    }
  }

  lemma {:induction false} ListedLeadsBack(index: map<Fp, string>, certfps: seq<Fp>, account: string, fp: Fp)
    ensures var after := Listed(index, certfps, account);
            if fp in certfps then fp in after && after[fp] == account
            else (fp in after <==> fp in index) && (fp in index ==> after[fp] == index[fp])
    decreases certfps
  {
    if certfps != [] {
      ListedLeadsBack(index[certfps[0] := account], certfps[1..], account, fp);
      assert fp in certfps <==> fp == certfps[0] || fp in certfps[1..];
    }
  }

  /** Unregister deletes the account with its credentials, and an entry of it only if it still leads there. An
      account that expires takes along what is stored with its time limit. */
  lemma {:induction false} DeletionOutcome(s: Store, account: string, fp: Fp)
    ensures var s' := DeleteAccount(s, account);
            && s'.existing == s.existing - {account} && s'.verified == s.verified - {account} && s'.creds == s.creds - {account}
            && s'.index == s.index && account !in s'.expiring && s'.expiringIndex == s.expiringIndex
    ensures var s' := DeleteEntry(s, account, fp);
            && (fp in s'.index <==> fp in s.index && s.index[fp] != account)
            && (forall other :: other != fp ==>
                  && (other in s'.index <==> other in s.index) && (other in s.index ==> s'.index[other] == s.index[other])
                  && (other in s'.expiringIndex <==> other in s.expiringIndex))
            && (fp in s.index && s.index[fp] == account ==> fp !in s'.expiringIndex) && s'.creds == s.creds
    ensures var s' := Expire(s, account);
            && s'.existing == s.existing - {account} && account !in s'.expiring && s'.verified == s.verified
            && (forall other :: other in s'.creds <==> other in s.creds && !(other == account && account in s.expiring))
            && (forall other :: other in s'.creds ==> s'.creds[other] == s.creds[other])
            && (fp in s'.index <==> fp in s.index && !(s.index[fp] == account && fp in s.expiringIndex))
  {
  }

  // ---------------------------------------------------------------- every step keeps it

  lemma {:induction false} CommitKeepsCreds(config: Config, s: State, t: Tid)
    requires Inv(config, s) && t in s.threads && s.threads[t].Editing?
    ensures var pc := s.threads[t];
            var n := Commit(s.store, pc.account, pc.edit, pc.before, pc.after).0;
            && n.creds.Keys == s.store.creds.Keys
            && forall account :: account in n.creds ==> CredsInv(n, account)
  {
    var Editing(account, edit, before, after) := s.threads[t];
    var (n, error) := Commit(s.store, account, edit, before, after);
    assert ThreadInv(s, t);
    if error == None {
      assert CredsInv(s.store, account);
      EditedList(before, edit);
      forall other | other in n.creds ensures CredsInv(n, other) {
        assert CredsInv(s.store, other);
      }
    }
  }

  lemma {:induction false} CommitKeepsEntries(config: Config, s: State, a: Action, fp: Fp)
    requires Inv(config, s) && Enabled(config, s, a) && a.CommitEdit?
    requires fp in Next(config, s, a).store.index
    ensures EntryInv(Next(config, s, a), fp)
  {
    var Editing(account, edit, before, after) := s.threads[a.t];
    var n := Next(config, s, a);
    assert ThreadInv(s, a.t);
    if account in s.store.creds { assert CredsInv(s.store, account); }
    if Commit(s.store, account, edit, before, after).1 == None {
      EditedList(before, edit);
    }
    if fp in s.store.index && n.store.index[fp] == s.store.index[fp] {
      assert EntryInv(s, fp);
      if !Lists(s.store.creds, s.store.index[fp], fp) {
        var u :| u in s.threads && Deletes(s.threads[u], s.store.index[fp], fp);
        assert u in n.threads && Deletes(n.threads[u], s.store.index[fp], fp);
      }
    }
  }

  lemma {:induction false} CommitKeepsInv(config: Config, s: State, a: Action)
    requires Inv(config, s) && Enabled(config, s, a) && a.CommitEdit?
    ensures Inv(config, Next(config, s, a))
  {
    var n := Next(config, s, a);
    CommitKeepsCreds(config, s, a.t);
    forall fp | fp in n.store.index ensures EntryInv(n, fp) { CommitKeepsEntries(config, s, a, fp); }
    forall t | t in n.threads ensures ThreadInv(n, t) { assert ThreadInv(s, t); }
    forall account | account in n.store.creds ensures ExpiryInv(n.store, account) {
      CommitKeepsExpiry(config, s, a.t, account);
    }
  }

  lemma {:induction false} CommitKeepsExpiry(config: Config, s: State, t: Tid, account: string)
    requires Inv(config, s) && t in s.threads && s.threads[t].Editing? && account in s.store.creds
    ensures var pc := s.threads[t];
            var n := Commit(s.store, pc.account, pc.edit, pc.before, pc.after).0;
            account in n.creds ==> ExpiryInv(n, account)
  {
    var Editing(edited, edit, before, after) := s.threads[t];
    assert ThreadInv(s, t) && CredsInv(s.store, account) && ExpiryInv(s.store, account);
    if edited in s.store.creds { assert CredsInv(s.store, edited); }
  }

  lemma {:induction false} OldEntryStays(s: State, n: State, fp: Fp)
    requires fp in s.store.index && EntryInv(s, fp) && fp in n.store.index && n.store.index[fp] == s.store.index[fp]
    requires Lists(s.store.creds, s.store.index[fp], fp) ==> Lists(n.store.creds, s.store.index[fp], fp)
    requires forall t :: t in s.threads && s.threads[t].Unregistering? ==> t in n.threads && n.threads[t] == s.threads[t]
    ensures EntryInv(n, fp)
  {
    if !Lists(s.store.creds, s.store.index[fp], fp) {
      var t :| t in s.threads && Deletes(s.threads[t], s.store.index[fp], fp);
      assert Deletes(n.threads[t], s.store.index[fp], fp);
    }
  }

  lemma {:induction false} BeginEditKeepsInv(config: Config, s: State, a: Action)
    requires Inv(config, s) && Enabled(config, s, a) && a.BeginEdit?
    ensures Inv(config, Next(config, s, a))
  {
    var n := Next(config, s, a);
    forall fp | fp in n.store.index ensures EntryInv(n, fp) { OldEntryStays(s, n, fp); }
    forall t | t in n.threads ensures ThreadInv(n, t) {
      if t in s.threads { assert ThreadInv(s, t); }
    }
  }

  lemma {:induction false} RegisterKeepsInv(config: Config, s: State, a: Action)
    requires Inv(config, s) && Enabled(config, s, a) && a.DoRegister? && IsHarmless(s, a)
    ensures Inv(config, Next(config, s, a))
    ensures a.account in s.store.existing || (a.fp.Some? && a.fp.value in s.store.index) ==> Next(config, s, a) == s
    ensures forall fp :: fp in s.store.index ==> fp in Next(config, s, a).store.index && Next(config, s, a).store.index[fp] == s.store.index[fp]
  {
    var n := Next(config, s, a);
    forall account | account in n.store.creds ensures CredsInv(n.store, account) && ExpiryInv(n.store, account) {
      if account in s.store.creds {
        assert CredsInv(s.store, account) && ExpiryInv(s.store, account);
      }
    }
    forall fp | fp in n.store.index ensures EntryInv(n, fp) {
      if fp in s.store.index { OldEntryStays(s, n, fp); }
    }
    forall t | t in n.threads ensures ThreadInv(n, t) { assert ThreadInv(s, t); }
  }

  /** A registration over credentials that were left behind with a fingerprint leaves that without an owner. */
  lemma {:induction false} RegisterLeavesEntry(config: Config, s: State, a: Action)
    requires Inv(config, s) && Enabled(config, s, a) && a.DoRegister? && !IsHarmless(s, a)
    ensures !IsInverse(Next(config, s, a))
  {
    assert CredsInv(s.store, a.account);
    var n, fp := Next(config, s, a), s.store.creds[a.account].certfps[0];
    assert fp in n.store.index && n.store.index[fp] == a.account && !Lists(n.store.creds, a.account, fp);
    assert MutexFree(n);
  }

  lemma {:induction false} ListedSame(index: map<Fp, string>, certfps: seq<Fp>, account: string)
    requires forall fp :: fp in certfps ==> fp in index && index[fp] == account
    ensures Listed(index, certfps, account) == index
    decreases certfps
  {
    if certfps != [] {
      assert index[certfps[0] := account] == index;
      ListedSame(index, certfps[1..], account);
    }
  }

  lemma {:induction false} VerifyKeepsInv(config: Config, s: State, a: Action)
    requires Inv(config, s) && Enabled(config, s, a) && a.DoVerify?
    ensures Inv(config, Next(config, s, a)) && Next(config, s, a).store.index == s.store.index
  {
    var n := Next(config, s, a);
    if a.account in s.store.creds {
      assert CredsInv(s.store, a.account);
      ListedSame(s.store.index, s.store.creds[a.account].certfps, a.account);
    }
    forall account | account in n.store.creds
      ensures CredsInv(n.store, account) && ExpiryInv(n.store, account)
    {
      assert CredsInv(s.store, account) && ExpiryInv(s.store, account);
    }
    forall fp | fp in n.store.index ensures EntryInv(n, fp) { OldEntryStays(s, n, fp); }
    forall t | t in n.threads ensures ThreadInv(n, t) { assert ThreadInv(s, t); }
  }

  lemma {:induction false} BeginUnregisterKeepsInv(config: Config, s: State, a: Action)
    requires Inv(config, s) && Enabled(config, s, a) && a.BeginUnregister?
    ensures Inv(config, Next(config, s, a)) && Next(config, s, a).store.index == s.store.index
    ensures forall fp :: fp in s.store.index && s.store.index[fp] == a.account ==> Deletes(Next(config, s, a).threads[a.t], a.account, fp)
  {
    var n := Next(config, s, a);
    forall account | account in n.store.creds
      ensures CredsInv(n.store, account) && ExpiryInv(n.store, account)
    {
      assert CredsInv(s.store, account) && ExpiryInv(s.store, account);
    }
    forall fp | fp in n.store.index
      ensures EntryInv(n, fp) && (s.store.index[fp] == a.account ==> Deletes(n.threads[a.t], a.account, fp))
    {
      assert EntryInv(s, fp);
      if s.store.index[fp] == a.account {
        assert Deletes(n.threads[a.t], a.account, fp);
      }
    }
    forall t | t in n.threads ensures ThreadInv(n, t) {
      if t in s.threads { assert ThreadInv(s, t); }
    }
  }

  lemma {:induction false} UnregisterNextKeepsInv(config: Config, s: State, a: Action)
    requires Inv(config, s) && Enabled(config, s, a) && a.UnregisterNext?
    ensures Inv(config, Next(config, s, a))
    ensures var account, fp := s.threads[a.t].account, s.threads[a.t].todo[0];
            Next(config, s, a).store.index ==
              if fp in s.store.index && s.store.index[fp] == account then s.store.index - {fp} else s.store.index
  {
    var n := Next(config, s, a);
    var Unregistering(deleted, todo) := s.threads[a.t];
    assert ThreadInv(s, a.t) && todo == [todo[0]] + todo[1..];
    forall account | account in n.store.creds
      ensures CredsInv(n.store, account) && ExpiryInv(n.store, account)
    {
      assert CredsInv(s.store, account) && ExpiryInv(s.store, account) && account != deleted;
    }
    forall fp | fp in n.store.index ensures EntryInv(n, fp) {
      assert EntryInv(s, fp);
      if !Lists(s.store.creds, s.store.index[fp], fp) {
        var t :| t in s.threads && Deletes(s.threads[t], s.store.index[fp], fp);
        assert t == a.t && Deletes(n.threads[t], deleted, fp);
      }
    }
    forall t | t in n.threads ensures ThreadInv(n, t) { assert ThreadInv(s, t); }
  }

  lemma {:induction false} EndUnregisterKeepsInv(config: Config, s: State, a: Action)
    requires Inv(config, s) && Enabled(config, s, a) && a.EndUnregister?
    ensures Inv(config, Next(config, s, a))
  {
    var n := Next(config, s, a);
    // the thread that ends is the only one, and has nothing left to delete
    assert ThreadInv(s, a.t);
    forall fp | fp in n.store.index ensures EntryInv(n, fp) { assert EntryInv(s, fp); }
    forall t | t in n.threads ensures ThreadInv(n, t) { assert ThreadInv(s, t); }
  }

  /** An account that expires leaves the index right exactly if its credentials either go with it or have no
      fingerprint that does. */
  lemma {:induction false} ExpireKeepsInv(config: Config, s: State, a: Action)
    requires Inv(config, s) && Enabled(config, s, a) && a.DoExpire?
    ensures IsHarmless(s, a) ==> Inv(config, Next(config, s, a))
    ensures IsInverse(Next(config, s, a)) <==> IsHarmless(s, a)
  {
    var n := Next(config, s, a);
    assert CredsInv(s.store, a.account) && ExpiryInv(s.store, a.account);
    if IsHarmless(s, a) {
      forall account | account in n.store.creds ensures CredsInv(n.store, account) && ExpiryInv(n.store, account) {
        assert CredsInv(s.store, account) && ExpiryInv(s.store, account);
      }
      forall fp | fp in n.store.index ensures EntryInv(n, fp) {
        OldEntryStays(s, n, fp);
      }
      forall t | t in n.threads ensures ThreadInv(n, t) { assert ThreadInv(s, t); }
      InvIsInverse(config, n);
    } else {
      var fp :| fp in s.store.creds[a.account].certfps && fp in s.store.expiringIndex;
      assert a.account in n.store.creds && fp in n.store.creds[a.account].certfps && fp !in n.store.index;
    }
  }

  /** Whatever the transaction, it leaves the index the inverse if and only if it is harmless, and then the
      next one starts from a sound state again. */
  lemma {:induction false} StepIsInverseExactlyIfHarmless(config: Config, s: State, a: Action)
    requires Inv(config, s) && Enabled(config, s, a)
    ensures IsInverse(Next(config, s, a)) <==> IsHarmless(s, a)
    ensures IsHarmless(s, a) ==> Inv(config, Next(config, s, a))
  {
    match a {
      case BeginEdit(_, _, _, _) => BeginEditKeepsInv(config, s, a);
      case CommitEdit(_) => CommitKeepsInv(config, s, a);
      case DoRegister(_, _, _) => if IsHarmless(s, a) { RegisterKeepsInv(config, s, a); } else { RegisterLeavesEntry(config, s, a); }
      case DoVerify(_) => VerifyKeepsInv(config, s, a);
      case BeginUnregister(_, _) => BeginUnregisterKeepsInv(config, s, a);
      case UnregisterNext(_) => UnregisterNextKeepsInv(config, s, a);
      case EndUnregister(_) => EndUnregisterKeepsInv(config, s, a);
      case DoExpire(_) => ExpireKeepsInv(config, s, a);
    }
    if IsHarmless(s, a) {
      InvIsInverse(config, Next(config, s, a));
    }
  }

  // ---------------------------------------------------------------- runs

  ghost predicate AllHarmless(config: Config, s: State, actions: seq<Action>)
    decreases actions
  {
    actions != [] ==>
      && Enabled(config, s, actions[0]) && IsHarmless(s, actions[0])
      && AllHarmless(config, Next(config, s, actions[0]), actions[1..])
  }

  ghost predicate InverseThroughout(config: Config, s: State, actions: seq<Action>)
    decreases actions
  {
    && IsInverse(s)
    && (actions != [] ==>
          Enabled(config, s, actions[0]) && InverseThroughout(config, Next(config, s, actions[0]), actions[1..]))
  }

  /** Through any run the index is the inverse of the credentials at every point if and only if every step is
      harmless. */
  lemma {:induction false} InverseExactlyIfHarmless(config: Config, s: State, actions: seq<Action>, s': State)
    requires Inv(config, s) && IsRun(config, s, actions, s')
    ensures InverseThroughout(config, s, actions) <==> AllHarmless(config, s, actions)
    ensures AllHarmless(config, s, actions) ==> Inv(config, s')
    decreases actions
  {
    InvIsInverse(config, s);
    if actions != [] {
      StepIsInverseExactlyIfHarmless(config, s, actions[0]);
      if IsHarmless(s, actions[0]) {
        InverseExactlyIfHarmless(config, Next(config, s, actions[0]), actions[1..], s');
      }
    }
  }

  /** The edit changes credentials that still have a time limit, those of an unverified account, and stores
      them without one. */
  ghost predicate IsTimedEdit(s: State, a: Action) {
    a.CommitEdit? && a.t in s.threads && s.threads[a.t].Editing? && s.threads[a.t].account in s.store.expiring
  }

  ghost predicate NoTimedEdits(config: Config, s: State, actions: seq<Action>)
    decreases actions
  {
    actions != [] && Enabled(config, s, actions[0]) ==>
      !IsTimedEdit(s, actions[0]) && NoTimedEdits(config, Next(config, s, actions[0]), actions[1..])
  }

  /** Credentials go with their account. */
  ghost predicate AllGoTogether(config: Config, store: Store) {
    && store.existing == store.creds.Keys
    && (config.timed ==> forall account :: account in store.creds && account !in store.verified ==> account in store.expiring)
  }

  lemma {:induction false} TogetherIsHarmless(config: Config, s: State, a: Action)
    requires Inv(config, s) && Enabled(config, s, a) && AllGoTogether(config, s.store) && !IsTimedEdit(s, a)
    ensures IsHarmless(s, a) && AllGoTogether(config, Next(config, s, a).store)
  {
  }

  lemma {:induction false} NoTimedEditsIsHarmless(config: Config, s: State, actions: seq<Action>, s': State)
    requires Inv(config, s) && AllGoTogether(config, s.store)
    requires NoTimedEdits(config, s, actions) && IsRun(config, s, actions, s')
    ensures AllHarmless(config, s, actions)
    decreases actions
  {
    if actions != [] {
      TogetherIsHarmless(config, s, actions[0]);
      StepIsInverseExactlyIfHarmless(config, s, actions[0]);
      NoTimedEditsIsHarmless(config, Next(config, s, actions[0]), actions[1..], s');
    }
  }

  /** In every run in which no credentials with a time limit are changed, the index leads from every listed
      fingerprint to its account, no two accounts list the same one, and when no Unregister is under way the
      index has nothing else. */
  lemma {:induction false} IndexIsInverse(config: Config, s: State, actions: seq<Action>, s': State)
    requires Init(s) && NoTimedEdits(config, s, actions) && IsRun(config, s, actions, s')
    ensures LeadsBack(s'.store) && (MutexFree(s') ==> NoDangling(s'.store))
    ensures forall a, b, fp :: Lists(s'.store.creds, a, fp) && Lists(s'.store.creds, b, fp) ==> a == b
  {
    NoTimedEditsIsHarmless(config, s, actions, s');
    InverseExactlyIfHarmless(config, s, actions, s');
    InvIsInverse(config, s');
  }

  ghost predicate AlwaysInverse(config: Config) {
    forall s, actions, s' :: Init(s) && IsRun(config, s, actions, s') ==> IsInverse(s')
  }

  lemma {:induction false} UntimedIsHarmless(config: Config, s: State, actions: seq<Action>, s': State)
    requires Inv(config, s) && !config.timed && IsRun(config, s, actions, s')
    ensures AllHarmless(config, s, actions)
    decreases actions
  {
    if actions != [] {
      StepIsInverseExactlyIfHarmless(config, s, actions[0]);
      UntimedIsHarmless(config, Next(config, s, actions[0]), actions[1..], s');
    }
  }

  // ---------------------------------------------------------------- time limits

  lemma {:induction false} RunExtends(config: Config, s: State, actions: seq<Action>, middle: State, a: Action)
    requires IsRun(config, s, actions, middle) && Enabled(config, middle, a)
    ensures IsRun(config, s, actions + [a], Next(config, middle, a))
    decreases actions
  {
    if actions == [] {
      assert [a][1..] == [];
      assert IsRun(config, Next(config, middle, a), [], Next(config, middle, a));
    } else {
      assert (actions + [a])[1..] == actions[1..] + [a];
      RunExtends(config, Next(config, s, actions[0]), actions[1..], middle, a);
    }
  }

  const EMPTY := State(Store({}, {}, map[], map[], {}, {}), map[])

  ghost predicate Reaches(config: Config, s: State) {
    exists actions :: IsRun(config, EMPTY, actions, s)
  }

  lemma {:induction false} Do(config: Config, s: State, a: Action) returns (s': State)
    requires Reaches(config, s) && Enabled(config, s, a)
    ensures s' == Next(config, s, a) && Reaches(config, s')
  {
    var actions :| IsRun(config, EMPTY, actions, s);
    RunExtends(config, EMPTY, actions, s, a);
    s' := Next(config, s, a);
  }

  /** An account that is not verified is registered, and gets a new password from an operator, which is stored
      without the time limit. */
  lemma {:induction false} PasswordIsChanged(config: Config, account: string, certfp: Option<Fp>) returns (s: State)
    requires config.timed
    ensures var certfps := if certfp.Some? then [certfp.value] else [];
            var entries := if certfp.Some? then {certfp.value} else {};
            s == State(Store({account}, {}, map[account := Creds(Some(1), certfps)], map fp | fp in entries :: account, {}, entries), map[])
    ensures Reaches(config, s)
  {
    var certfps := if certfp.Some? then [certfp.value] else [];
    var entries := if certfp.Some? then {certfp.value} else {};
    var index := map fp | fp in entries :: account;
    assert IsRun(config, EMPTY, [], EMPTY);
    s := Do(config, EMPTY, DoRegister(account, None, certfp));
    assert s == State(Store({account}, {}, map[account := Creds(None, certfps)], index, {account}, entries), map[]);
    s := Do(config, s, BeginEdit(0, account, SetPassword(Some(1)), true));
    assert s.threads == map[0 := Editing(account, SetPassword(Some(1)), Creds(None, certfps), Creds(Some(1), certfps))];
    s := Do(config, s, CommitEdit(0));
  }

  /** The new password outlives the entry of the account's fingerprint. */
  lemma {:induction false} PasswordOutlivesEntry(config: Config, account: string) returns (s: State)
    requires config.timed
    ensures Reaches(config, s) && MutexFree(s) && !LeadsBack(s.store)
  {
    s := PasswordIsChanged(config, account, Some(0));
    s := Do(config, s, DoExpire(account));
    assert s.store.creds == map[account := Creds(Some(1), [0])] && s.store.index == map[];
    assert 0 in s.store.creds[account].certfps;
  }

  /** The credentials that are left of an expired account get a fingerprint, and are replaced by those of a
      new account of that name: nobody lists the fingerprint any more, but it cannot be used. */
  lemma {:induction false} EntryOutlivesCredentials(config: Config, account: string) returns (s: State)
    requires config.timed
    ensures Reaches(config, s) && MutexFree(s) && !NoDangling(s.store)
  {
    s := PasswordIsChanged(config, account, None);
    s := Do(config, s, DoExpire(account));
    var left := Creds(Some(1), []);
    assert s == State(Store({}, {}, map[account := left], map[], {}, {}), map[]);
    assert left.certfps + [0] == [0] && Edited(left, AddFp(0)) == Ok(Creds(Some(1), [0]));
    s := Do(config, s, BeginEdit(0, account, AddFp(0), true));
    assert s.threads == map[0 := Editing(account, AddFp(0), left, Creds(Some(1), [0]))];
    s := Do(config, s, CommitEdit(0));
    assert s == State(Store({}, {}, map[account := Creds(Some(1), [0])], map[0 := account], {}, {}), map[]);
    s := Do(config, s, DoRegister(account, None, None));
    assert s.store.creds == map[account := Creds(None, [])] && s.store.index == map[0 := account];
    assert !Lists(s.store.creds, account, 0);
  }

  /** In particular the index is the inverse in every run, if and only if unverified accounts have no time
      limit. */
  lemma {:induction false} InverseExactlyWithoutTimeLimit(config: Config)
    ensures AlwaysInverse(config) <==> !config.timed
  {
    if config.timed {
      var s := PasswordOutlivesEntry(config, "a");
      var actions :| IsRun(config, EMPTY, actions, s);
      assert Init(EMPTY) && !IsInverse(s);
    } else {
      forall s, actions, s' | Init(s) && IsRun(config, s, actions, s') ensures IsInverse(s') {
        UntimedIsHarmless(config, s, actions, s');
        InverseExactlyIfHarmless(config, s, actions, s');
        InvIsInverse(config, s');
      }
    }
  }
}
