/** KLineManager and DLineManager as they update their maps (irc/kline.go, irc/dline.go). Each method leaves
    the memory that the function of the same name in Bans describes. */
module BanManager {
  import opened Bans

  class BanManager {
    const kind: Kind
    /** Whether an entry's matcher accepts a hostmask. */
    const matches: (Key, string) -> bool
    var entries: map<Key, Ban>
    var expirationTimers: map<Key, Timer>

    ghost function Memory(): Memory
      reads this
    {
      Bans.Memory(entries, expirationTimers)
    }

    constructor (kind: Kind, matches: (Key, string) -> bool)
      ensures this.kind == kind && this.matches == matches
      ensures entries == map[] && expirationTimers == map[]
    {
      this.kind, this.matches := kind, matches;
      entries, expirationTimers := map[], map[];
    }

    method CancelTimer(key: Key)
      modifies this`expirationTimers
      ensures Memory() == Bans.CancelTimer(old(Memory()), key)
    {
      if key in expirationTimers {
        expirationTimers := expirationTimers - {key};
      } else {
        assert expirationTimers - {key} == expirationTimers;
      }
    }

    method AddInternal(key: Key, ban: Ban, now: int)
      modifies this
      ensures Memory() == Bans.AddInternal(kind, old(Memory()), key, ban, now)
    {
      var timeLeft := 0;
      if (if kind.Kline? then ban.duration > 0 else ban.duration != 0) {
        timeLeft := ban.created + ban.duration - now;
        if timeLeft <= 0 {
          return;
        }
      }
      entries := entries[key := ban];
      CancelTimer(key);
      if ban.duration == 0 {
        return;
      }
      expirationTimers := expirationTimers[key := Timer(ban.created, now + timeLeft, false)];
    }

    method ProcessExpiration(key: Key, timeCreated: int)
      modifies this
      ensures Memory() == Bans.ProcessExpiration(old(Memory()), key, timeCreated)
    {
      if key in entries && entries[key].created == timeCreated {
        entries := entries - {key};
        expirationTimers := expirationTimers - {key};
      }
    }

    /** The part of removal that changes memory. */
    method RemoveEntry(key: Key) returns (present: bool)
      modifies this
      ensures Memory() == Bans.RemoveEntry(old(Memory()), key)
      ensures present <==> key in old(entries)
    {
      present := key in entries;
      entries := entries - {key};
      CancelTimer(key);
    }

    /** Adds what is in the datastore, in any order. */
    method LoadFromDatastore(store: map<Key, Record>, now: int)
      requires entries == map[] && expirationTimers == map[]
      modifies this
      ensures entries == Loaded(kind, store, now)
      ensures TimersInv(Memory())
    {
      var todo := store.Keys;
      while todo != {}
        invariant todo <= store.Keys
        invariant entries == Loaded(kind, LoadedSoFar(store, todo), now)
        invariant TimersInv(Memory())
        decreases todo
      {
        var key :| key in todo;
        if store[key].expires.None? || store[key].expires.value > now {
          AddInternal(key, store[key].ban, now);
        }
        LoadOneMore(kind, store, todo, key, now);
        todo := todo - {key};
      }
      assert LoadedSoFar(store, {}) == store;
    }

    /** The strictest ban among those that match, whatever the order of iteration: an unconditional one, if
        there is any. */
    method CheckMasks(masks: seq<string>) returns (isBanned: bool, info: Ban)
      ensures isBanned <==> exists key :: key in entries && Matches(key, masks)
      ensures isBanned ==> exists key :: key in entries && Matches(key, masks) && info == entries[key]
      ensures isBanned && info.requireSASL ==> forall key :: key in entries && Matches(key, masks) ==> entries[key].requireSASL
    {
      isBanned, info := false, Ban("", false, 0, 0);
      var todo := entries.Keys;
      while todo != {}
        invariant todo <= entries.Keys
        invariant Strictest(entries.Keys - todo, masks, isBanned, info)
        decreases todo
      {
        var key :| key in todo;
        ghost var wasBanned, was := isBanned, info;
        for i := 0 to |masks|
          invariant if Matches(key, masks[..i]) && (!wasBanned || was.requireSASL) then isBanned && info == entries[key]
                    else isBanned == wasBanned && info == was
        {
          MatchesOneMore(key, masks, i);
          if matches(key, masks[i]) {
            // a ban that SASL does not lift is kept
            if !isBanned || info.requireSASL {
              isBanned, info := true, entries[key];
            }
          }
        }
        assert masks[..|masks|] == masks;
        assert entries.Keys - (todo - {key}) == (entries.Keys - todo) + {key};
        todo := todo - {key};
      }
      assert entries.Keys - todo == entries.Keys;
    }

    predicate Matches(key: Key, masks: seq<string>)
    {
      exists i :: 0 <= i < |masks| && matches(key, masks[i])
    }

    lemma {:induction false} MatchesOneMore(key: Key, masks: seq<string>, i: nat)
      requires i < |masks|
      ensures Matches(key, masks[..i + 1]) <==> Matches(key, masks[..i]) || matches(key, masks[i])
    {
      if Matches(key, masks[..i]) {
        var j :| 0 <= j < i && matches(key, masks[..i][j]);
        assert matches(key, masks[..i + 1][j]);
      }
      if matches(key, masks[i]) {
        assert matches(key, masks[..i + 1][i]);
      }
    }

    ghost predicate Strictest(seen: set<Key>, masks: seq<string>, isBanned: bool, info: Ban)
      reads this
      requires seen <= entries.Keys
    {
      && (isBanned <==> exists key :: key in seen && Matches(key, masks))
      && (isBanned ==> exists key :: key in seen && Matches(key, masks) && info == entries[key])
      && (isBanned && info.requireSASL ==> forall key :: key in seen && Matches(key, masks) ==> entries[key].requireSASL)
    }
  }

  function LoadedSoFar(store: map<Key, Record>, todo: set<Key>): map<Key, Record> {
    map key | key in store && key !in todo :: store[key]
  }

  lemma {:induction false} LoadOneMore(kind: Kind, store: map<Key, Record>, todo: set<Key>, key: Key, now: int)
    requires key in todo && todo <= store.Keys
    ensures Loaded(kind, LoadedSoFar(store, todo - {key}), now) ==
            if IsLoaded(kind, store[key], now) then Loaded(kind, LoadedSoFar(store, todo), now)[key := store[key].ban]
            else Loaded(kind, LoadedSoFar(store, todo), now)
  {
  }
}
