/** ChannelManager as it updates its maps (irc/channelmanager.go). Each method is the part of the Go
    method that runs under the manager's lock, and leaves the registry that the function of the same
    name in ChannelRegistry describes. */
module ChannelManager {
  import opened Common
  import Reg = ChannelRegistry

  class ChannelManager {
    const config: Reg.Config
    var chans: map<string, Reg.Entry>
    var chansSkeletons: set<string>
    var purgedChannels: set<string>
    /** The Channel objects, by identity. */
    var heap: map<Reg.Ch, Reg.Channel>

    ghost function Registry(): Reg.Registry
      reads this
    {
      Reg.Registry(chans, chansSkeletons, purgedChannels, heap)
    }

    ghost predicate Valid()
      reads this
    {
      Reg.EntriesInHeap(Registry())
    }

    constructor (config: Reg.Config, purged: set<string>)
      ensures Valid() && Registry() == Reg.Registry(map[], {}, purged, map[])
    {
      this.config := config;
      chans, chansSkeletons, purgedChannels, heap := map[], {}, purged, map[];
    }

    /** The section of Join that finds or creates the channel. */
    method EnterJoin(name: string, mayCreate: bool, newCh: Reg.Ch) returns (result: Result<Reg.Ch, Reg.Error>)
      requires Valid() && newCh !in heap
      modifies this
      ensures Valid()
      ensures (Registry(), result) == Reg.Enter(config, old(Registry()), name, mayCreate, newCh)
    {
      var casefoldedName := config.fold.casefold(name);
      var skeleton := config.fold.skeleton(name);
      if casefoldedName.None? || skeleton.None? || |casefoldedName.value| > config.channelLen {
        return Err(Reg.NoSuchChannel);
      }
      var cf := casefoldedName.value;
      // a purge does not take the channel out of the map
      if cf in purgedChannels {
        return Err(Reg.ChannelPurged);
      }
      if cf !in chans {
        if !mayCreate {
          return Err(Reg.InsufficientPrivs);
        }
        if skeleton.value in chansSkeletons {
          return Err(Reg.Confusable);
        }
        heap := heap[newCh := Reg.Channel(name, cf, {}, "")];
        chansSkeletons := chansSkeletons + {skeleton.value};
        chans := chans[cf := Reg.Entry(newCh, 0, skeleton.value)];
      }
      var entry := chans[cf];
      chans := chans[cf := entry.(pendingJoins := entry.pendingJoins + 1)];
      assert old(cf !in chans) ==>
          old(chans)[cf := Reg.Entry(newCh, 0, skeleton.value)][cf := Reg.Entry(newCh, 1, skeleton.value)]
          == old(chans)[cf := Reg.Entry(newCh, 1, skeleton.value)];
      return Ok(entry.channel);
    }

    method MaybeCleanup(channel: Reg.Ch, afterJoin: bool, busy: bool)
      requires Valid() && channel in heap
      modifies this
      ensures Valid() && Registry() == Reg.MaybeCleanup(old(Registry()), channel, afterJoin, busy)
    {
      var cfname := heap[channel].cf;
      if cfname !in chans || chans[cfname].channel != channel {
        return;
      }
      MaybeCleanupInternal(cfname, afterJoin, busy);
    }

    method MaybeCleanupInternal(cfname: string, afterJoin: bool, busy: bool)
      requires Valid() && cfname in chans
      modifies this
      ensures Valid()
      ensures Registry() == Reg.CleanupInternal(old(Registry()), cfname, old(chans[cfname]), afterJoin, busy)
    {
      var entry := chans[cfname];
      if afterJoin {
        entry := entry.(pendingJoins := entry.pendingJoins - 1);
        chans := chans[cfname := entry];
      }
      if entry.pendingJoins == 0 && Reg.IsClean(heap[entry.channel], busy) {
        chans := chans - {cfname};
        if entry.skeleton != "" {
          chansSkeletons := chansSkeletons - {entry.skeleton};
        }
      }
      assert old(chans)[cfname := entry] - {cfname} == old(chans) - {cfname};
      assert entry == old(chans)[cfname] ==> old(chans)[cfname := entry] == old(chans);
    }

    method SetRegistered(channelName: string, account: string, enabled: bool) returns (error: Option<Reg.Error>)
      requires Valid()
      modifies this
      ensures Valid() && (Registry(), error) == Reg.SetRegistered(config, old(Registry()), channelName, account, enabled)
      ensures var cf := config.fold.casefold(channelName);
              error.None? <==> account != "" && enabled && cf.Some? && cf.value in chans && old(heap)[chans[cf.value].channel].founder == ""
      ensures forall ch :: ch in old(heap) && old(heap)[ch].founder != "" ==> ch in heap && heap[ch].founder == old(heap)[ch].founder
    {
      if account == "" {
        return Some(Reg.AuthRequired);
      }
      if !enabled {
        return Some(Reg.FeatureDisabled);
      }
      var cfname := config.fold.casefold(channelName);
      if cfname.None? || cfname.value !in chans {
        return Some(Reg.NoSuchChannel);
      }
      var channel := chans[cfname.value].channel;
      if heap[channel].founder != "" {
        return Some(Reg.AlreadyRegistered);
      }
      heap := heap[channel := heap[channel].(founder := account)];
      return None;
    }

    method SetUnregistered(channelName: string, account: string, busy: bool) returns (error: Option<Reg.Error>)
      requires Valid()
      modifies this
      ensures Valid() && (Registry(), error) == Reg.SetUnregistered(config, old(Registry()), channelName, account, busy)
      ensures forall ch :: ch in old(heap) && old(heap)[ch].founder != account ==> ch in heap && heap[ch] == old(heap)[ch]
    {
      var cfname := config.fold.casefold(channelName);
      if cfname.None? {
        return Some(Reg.NoSuchChannel);
      }
      if cfname.value in chans {
        var channel := chans[cfname.value].channel;
        if heap[channel].founder != account {
          return Some(Reg.NotOwned);
        }
        heap := heap[channel := heap[channel].(founder := "")];
        // it may have been empty for long
        MaybeCleanupInternal(cfname.value, false, busy);
      }
      return None;
    }

    method Rename(name: string, newName: string) returns (error: Option<Reg.Error>)
      requires Valid()
      modifies this
      ensures Valid() && (Registry(), error) == Reg.Rename(config, old(Registry()), name, newName)
    {
      var oldCfname := config.fold.casefold(name);
      if oldCfname.None? {
        return Some(Reg.NoSuchChannel);
      }
      var newCfname, newSkeleton := config.fold.casefold(newName), config.fold.skeleton(newName);
      if newCfname.None? || newSkeleton.None? {
        return Some(Reg.InvalidName);
      }
      if oldCfname.value !in chans {
        return Some(Reg.NoSuchChannel);
      }
      var entry := chans[oldCfname.value];
      var channel := heap[entry.channel];
      var oldSkeleton := config.fold.skeleton(channel.name);
      if oldSkeleton.None? {
        return Some(Reg.NoSuchChannel);
      }
      if newCfname.value != oldCfname.value && newCfname.value in chans {
        return Some(Reg.NameInUse);
      }
      if oldSkeleton.value != newSkeleton.value && newSkeleton.value in chansSkeletons {
        return Some(Reg.Confusable);
      }
      chans := chans - {oldCfname.value};
      if channel.founder == "" {
        entry := entry.(skeleton := newSkeleton.value);
      }
      chans := chans[newCfname.value := entry];
      chansSkeletons := chansSkeletons - {oldSkeleton.value};
      chansSkeletons := chansSkeletons + {newSkeleton.value};
      heap := heap[entry.channel := channel.(name := newName, cf := newCfname.value)];
      return None;
    }
  }
}
