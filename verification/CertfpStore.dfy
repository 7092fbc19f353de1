/** The credential operations of AccountManager as they change the datastore (irc/accounts.go). Each method
    leaves the store that the functions of CertfpIndex describe. */
module CertfpStore {
  import opened Common
  import opened CertfpIndex

  /** AccountCredentials. */
  class AccountCredentials {
    var password: Option<nat>
    var certfps: seq<Fp>

    ghost function Value(): Creds
      reads this
    {
      Creds(password, certfps)
    }

    constructor (creds: Creds)
      ensures Value() == creds
    {
      password, certfps := creds.password, creds.certfps;
    }

    method AddCertfp(certfp: Fp) returns (error: Option<Error>)
      modifies this`certfps
      ensures var edited := Edited(old(Value()), AddFp(certfp));
              if edited.Ok? then error == None && Value() == edited.value else error == Some(edited.error) && Value() == old(Value())
    {
      for i := 0 to |certfps|
        invariant certfp !in certfps[..i]
        invariant Value() == old(Value())
      {
        if certfp == certfps[i] {
          return Some(Noop);
        }
      }
      if MAX_CERTFPS <= |certfps| {
        return Some(LimitExceeded);
      }
      certfps := certfps + [certfp];
      return None;
    }

    method RemoveCertfp(certfp: Fp) returns (error: Option<Error>)
      modifies this`certfps
      ensures var edited := Edited(old(Value()), RemoveFp(certfp));
              if edited.Ok? then error == None && Value() == edited.value else error == Some(edited.error) && Value() == old(Value())
    {
      var found, newList := ListWithout(certfp);
      if !found {
        // its entry in the index may be that of another account
        return Some(Noop);
      }
      certfps := newList;
      return None;
    }

    method ListWithout(certfp: Fp) returns (found: bool, newList: seq<Fp>)
      ensures found <==> certfp in certfps
      ensures newList == Without(certfps, certfp)
    {
      found, newList := false, [];
      for i := 0 to |certfps|
        invariant found <==> certfp in certfps[..i]
        invariant newList + Without(certfps[i..], certfp) == Without(certfps, certfp)
      {
        assert certfps[i..][0] == certfps[i] && certfps[i..][1..] == certfps[i + 1..];
        if certfps[i] == certfp {
          found := true;
        } else {
          newList := newList + [certfps[i]];
        }
      }
      assert certfps[|certfps|..] == [];
    }

    method Change(edit: Edit) returns (error: Option<Error>)
      modifies this
      ensures var edited := Edited(old(Value()), edit);
              if edited.Ok? then error == None && Value() == edited.value else error == Some(edited.error) && Value() == old(Value())
    {
      match edit {
        case AddFp(fp) => error := AddCertfp(fp);
        case RemoveFp(fp) => error := RemoveCertfp(fp);
        case SetPassword(hash) =>
          password := hash;
          error := None;
      }
    }
  }

  lemma {:induction false} EditIs(s: Store, account: string, edit: Edit, hasPrivs: bool)
    requires ReadAndEdit(s, account, edit, hasPrivs).Ok?
    ensures account in s.creds
    ensures var before, after := s.creds[account], ReadAndEdit(s, account, edit, hasPrivs).value;
            && (!hasPrivs ==> before != Creds(None, []) && after != Creds(None, []))
            && match edit
               case SetPassword(password) => after == Creds(password, before.certfps)
               case AddFp(fp) => after == Creds(before.password, before.certfps + [fp])
               case RemoveFp(fp) => after.password == before.password && fp in before.certfps &&
                                    forall x :: x in after.certfps <==> x in before.certfps && x != fp
  {
    ReadAndEditOutcome(s, account, edit, hasPrivs);
    EditedOutcome(s.creds[account], edit);
    if edit.RemoveFp? {
      forall x { WithoutHas(s.creds[account].certfps, edit.fp, x); }
    }
  }

  class Datastore {
    var existing: set<string>
    var verified: set<string>
    var creds: map<string, Creds>
    var index: map<Fp, string>
    var expiring: set<string>
    var expiringIndex: set<Fp>

    ghost function Contents(): Store
      reads this
    {
      Store(existing, verified, creds, index, expiring, expiringIndex)
    }

    constructor ()
      ensures Contents() == Store({}, {}, map[], map[], {}, {})
    {
      existing, verified, creds, index, expiring, expiringIndex := {}, {}, map[], map[], {}, {};
    }

    /** The first phase of addRemoveCertfp and setPassword. */
    method PrepareEdit(account: string, edit: Edit, hasPrivs: bool) returns (result: Result<Creds, Error>)
      ensures result == ReadAndEdit(Contents(), account, edit, hasPrivs)
    {
      if account !in creds {
        return Err(DoesNotExist);
      }
      if !hasPrivs && IsEmpty(creds[account]) {
        return Err(CredsExternallyManaged);
      }
      var changed := new AccountCredentials(creds[account]);
      var error := changed.Change(edit);
      if error.Some? {
        return Err(error.value);
      }
      var after := Creds(changed.password, changed.certfps);
      if IsEmpty(after) && !hasPrivs {
        return Err(EmptyCredentials);
      }
      return Ok(after);
    }

    /** The second phase. */
    method CommitEdit(account: string, edit: Edit, before: Creds, after: Creds) returns (error: Option<Error>)
      modifies this
      ensures (Contents(), error) == Commit(old(Contents()), account, edit, before, after)
    {
      if account !in creds || creds[account] != before {
        return Some(CASFailed);
      }
      match edit {
        case AddFp(fp) =>
          if fp in index {
            return Some(CertfpAlreadyExists);
          }
          index := index[fp := account];
          expiringIndex := expiringIndex - {fp};
        case RemoveFp(fp) =>
          index := index - {fp};
          expiringIndex := expiringIndex - {fp};
        case SetPassword(_) =>
      }
      creds := creds[account := after];
      expiring := expiring - {account};
      return None;
    }

    /** Both phases with nothing in between: if the credentials can be changed, only a fingerprint that is
        already in use stands in the way. */
    method EditCredentials(account: string, edit: Edit, hasPrivs: bool) returns (error: Option<Error>)
      modifies this
      ensures var prepared := ReadAndEdit(old(Contents()), account, edit, hasPrivs);
              if prepared.Err? then error == Some(prepared.error) && Contents() == old(Contents())
              else if edit.AddFp? && edit.fp in old(index) then error == Some(CertfpAlreadyExists) && Contents() == old(Contents())
              else
                && error == None && creds == old(creds)[account := prepared.value]
                && index == match edit
                            case AddFp(fp) => old(index)[fp := account]
                            case RemoveFp(fp) => old(index) - {fp}
                            case SetPassword(_) => old(index)
      ensures forall other :: other != account ==>
                (other in creds <==> other in old(creds)) && (other in creds ==> creds[other] == old(creds)[other])
      ensures error.None? ==> account in old(creds) && account in creds
      ensures error.None? && !hasPrivs ==> old(creds)[account] != Creds(None, []) && creds[account] != Creds(None, [])
      ensures error.None? ==>
                match edit
                case SetPassword(password) => creds[account] == Creds(password, old(creds)[account].certfps)
                case AddFp(fp) => creds[account] == Creds(old(creds)[account].password, old(creds)[account].certfps + [fp])
                case RemoveFp(fp) => creds[account].password == old(creds)[account].password && fp in old(creds)[account].certfps &&
                                     forall x :: x in creds[account].certfps <==> x in old(creds)[account].certfps && x != fp
    {
      if ReadAndEdit(Contents(), account, edit, hasPrivs).Ok? {
        EditIs(Contents(), account, edit, hasPrivs);
      }
      var prepared := PrepareEdit(account, edit, hasPrivs);
      if prepared.Err? {
        return Some(prepared.error);
      }
      error := CommitEdit(account, edit, creds[account], prepared.value);
    }

    method Register(account: string, password: Option<nat>, certfp: Option<Fp>, timed: bool) returns (error: Option<Error>)
      modifies this
      ensures (Contents(), error) == CertfpIndex.Register(old(Contents()), account, password, certfp, timed)
    {
      if account in existing {
        return Some(AlreadyRegistered);
      }
      if certfp.Some? && certfp.value in index {
        return Some(CertfpAlreadyExists);
      }
      existing := existing + {account};
      creds := creds[account := Creds(password, if certfp.Some? then [certfp.value] else [])];
      expiring := if timed then expiring + {account} else expiring - {account};
      if certfp.Some? {
        index := index[certfp.value := account];
        expiringIndex := if timed then expiringIndex + {certfp.value} else expiringIndex - {certfp.value};
      } else {
        assert expiringIndex + {} == expiringIndex && expiringIndex - {} == expiringIndex;
      }
      return None;
    }

    /** Stores everything again, without a time limit. */
    method Verify(account: string) returns (error: Option<Error>)
      modifies this
      ensures (Contents(), error) == CertfpIndex.Verify(old(Contents()), account)
    {
      if account !in existing || account !in creds {
        return Some(DoesNotExist);
      }
      if account in verified {
        return Some(AlreadyVerified);
      }
      verified := verified + {account};
      expiring := expiring - {account};
      ghost var limited := expiringIndex;
      var certfps := creds[account].certfps;
      for i := 0 to |certfps|
        invariant Listed(index, certfps[i..], account) == Listed(old(index), certfps, account)
        invariant expiringIndex == limited - set fp | fp in certfps[..i]
        invariant existing == old(existing) && verified == old(verified) + {account} && creds == old(creds)
        invariant expiring == old(expiring) - {account}
      {
        assert certfps[i..][0] == certfps[i] && certfps[i..][1..] == certfps[i + 1..];
        assert certfps[..i + 1] == certfps[..i] + [certfps[i]];
        index := index[certfps[i] := account];
        expiringIndex := expiringIndex - {certfps[i]};
      }
      assert certfps[..|certfps|] == certfps && certfps[|certfps|..] == [];
      return None;
    }

    /** Unregister with nothing in between: the account is gone, and so are the entries of its fingerprints
        that lead to it. */
    method Unregister(account: string)
      modifies this
      ensures existing == old(existing) - {account} && verified == old(verified) - {account} && creds == old(creds) - {account}
      ensures index == map fp | fp in old(index) && !(old(index)[fp] == account && Lists(old(creds), account, fp)) :: old(index)[fp]
    {
      var certfps := if account in creds then creds[account].certfps else [];
      existing, verified, creds, expiring := existing - {account}, verified - {account}, creds - {account}, expiring - {account};
      for i := 0 to |certfps|
        invariant existing == old(existing) - {account} && verified == old(verified) - {account} && creds == old(creds) - {account}
        invariant index == map fp | fp in old(index) && !(old(index)[fp] == account && fp in certfps[..i]) :: old(index)[fp]
      {
        assert certfps[..i + 1] == certfps[..i] + [certfps[i]];
        UnregisterCertfp(account, certfps[i]);
      }
    }

    method UnregisterCertfp(account: string, certfp: Fp)
      modifies this`index, this`expiringIndex
      ensures Contents() == DeleteEntry(old(Contents()), account, certfp)
    {
      if certfp in index && index[certfp] == account {
        index := index - {certfp};
        expiringIndex := expiringIndex - {certfp};
      }
    }
  }
}
