/** The ping and disconnect timer of a session (irc/client.go, with the check of irc/config.go).

    Time is an integer in nanoseconds. The timer fires exactly when it is due. A line that has been
    received takes its time of receipt before it takes the lock, so `Touch` may come after a firing that is
    later than the time it brings: by at most `slack`. */
module IdleTimer {
  import opened Common

  const SECOND: int := 1_000_000_000
  const TOR_PING_TIMEOUT: int := 30 * SECOND
  const PING_COALESCE_THRESHOLD: int := SECOND

  datatype Config = Config(ping: int, disconnect: int)

  /** What the configuration is checked for. */
  predicate IsChecked(config: Config) {
    0 < config.ping < config.disconnect
  }

  function PingTimeout(config: Config, isTor: bool): int {
    if isTor && TOR_PING_TIMEOUT < config.ping then TOR_PING_TIMEOUT else config.ping
  }

  class Session {
    const config: Config
    const isTor: bool
    const slack: nat
    var lastTouch: int
    var pingSent: bool
    var nextFire: Option<int>          // when the idle timer is due
    var destroyed: bool
    ghost var touched: bool            // whether a line has been received at all
    ghost var clock: int               // when the session was last looked at
    ghost var pings: seq<int>          // when PINGs were sent
    ghost var destroyedAt: int

    ghost function Ping(): int { PingTimeout(config, isTor) }

    ghost predicate Valid()
      reads this
    {
      && IsChecked(config) && Ping() + slack < config.disconnect
      && (nextFire.Some? <==> touched && !destroyed)
      && (touched ==> lastTouch <= clock)
      && (pingSent ==> pings != [] && PingIsInTime(pings[|pings| - 1]))
      && (nextFire.Some? ==> TimerIsInTime(nextFire.value))
      && (destroyed ==> touched && pingSent && destroyedAt == lastTouch + config.disconnect)
    }

    /** The last PING was for the present silence, and early enough to be answered. */
    ghost predicate PingIsInTime(ping: int)
      reads this
    {
      lastTouch + Ping() - PING_COALESCE_THRESHOLD <= ping <= lastTouch + Ping() + slack
    }

    ghost predicate TimerIsInTime(due: int)
      reads this
    {
      && due <= clock + Ping()
      && due <= lastTouch + if pingSent then config.disconnect else Ping() + slack
    }

    constructor (config: Config, isTor: bool, slack: nat)
      requires IsChecked(config) && PingTimeout(config, isTor) + slack < config.disconnect
      ensures Valid() && !touched && !destroyed && pings == []
      ensures this.config == config && this.isTor == isTor && this.slack == slack
    {
      this.config, this.isTor, this.slack := config, isTor, slack;
      lastTouch, pingSent, nextFire, destroyed := 0, false, None, false;
      touched, pings := false, [];
    }

    /** A line was received at `received`, and the lock is taken at `now`. */
    method Touch(received: int, now: int)
      requires Valid() && !destroyed && now - slack <= received <= now
      requires touched ==> lastTouch <= received && clock <= now
      modifies this
      ensures Valid() && touched && !destroyed && lastTouch == received && clock == now
      ensures pings == old(pings) && !pingSent
      ensures nextFire == if old(nextFire).Some? then old(nextFire)
                          else Some(now + if isTor && config.ping > 30_000_000_000 then 30_000_000_000 else config.ping)
    {
      lastTouch := received;
      pingSent := false;
      if nextFire.None? {
        nextFire := Some(now + PingTimeout(config, isTor));
      }
      touched, clock := true, now;
    }

    /** The timer fires at `now`. */
    method HandleIdleTimeout(now: int)
      requires Valid() && nextFire == Some(now) && clock <= now
      modifies this
      ensures Valid() && touched && clock == now && lastTouch == old(lastTouch)
      ensures destroyed <==> old(pingSent) && now == lastTouch + config.disconnect
      ensures destroyed ==> destroyedAt == now
      ensures var sendPing := !old(pingSent) && now >= lastTouch + Ping() - PING_COALESCE_THRESHOLD;
              pings == old(pings) + (if sendPing then [now] else []) && (pingSent <==> old(pingSent) || sendPing)
      ensures nextFire.Some? <==> !destroyed
      ensures nextFire.Some? ==>
                var ping := if isTor && config.ping > 30_000_000_000 then 30_000_000_000 else config.ping;
                && now < nextFire.value <= now + ping
                && nextFire.value in {now + ping, lastTouch + ping, lastTouch + config.disconnect}
                && (lastTouch + ping > now + 1_000_000_000 ==> nextFire.value <= lastTouch + ping)
                && (lastTouch + config.disconnect > now ==> nextFire.value <= lastTouch + config.disconnect)
    {
      var pingTimeout := PingTimeout(config, isTor);
      var timeUntilDestroy := lastTouch + config.disconnect - now;
      var timeUntilPing := lastTouch + pingTimeout - now;
      var shouldDestroy := pingSent && timeUntilDestroy <= 0;
      var shouldSendPing := !pingSent && timeUntilPing <= PING_COALESCE_THRESHOLD;
      nextFire := None;
      if !shouldDestroy {
        if shouldSendPing {
          pingSent := true;
        }
        // never later than the next PING or the end could be due
        var nextTimeout := pingTimeout;
        if PING_COALESCE_THRESHOLD < timeUntilPing < nextTimeout {
          nextTimeout := timeUntilPing;
        }
        if 0 < timeUntilDestroy < nextTimeout {
          nextTimeout := timeUntilDestroy;
        }
        nextFire := Some(now + nextTimeout);
      }
      clock := now;
      if shouldDestroy {
        destroyed := true;
        destroyedAt := now;
      } else if shouldSendPing {
        pings := pings + [now];
      }
    }

    /** Silence: from here on only the timer fires. The session is destroyed exactly a disconnect timeout
        after its last line, after a PING that it had time to answer. */
    method StaySilent()
      requires Valid() && touched && !destroyed && clock <= nextFire.value
      modifies this
      ensures Valid() && destroyed && lastTouch == old(lastTouch)
      ensures destroyedAt == lastTouch + config.disconnect
      ensures pings != [] && PingIsInTime(pings[|pings| - 1]) && pings[|pings| - 1] < destroyedAt
      ensures var ping := if isTor && config.ping > 30_000_000_000 then 30_000_000_000 else config.ping;
              -1_000_000_000 <= pings[|pings| - 1] - (lastTouch + ping) <= slack
    {
      while !destroyed
        invariant Valid() && touched && lastTouch == old(lastTouch)
        invariant nextFire.Some? ==> clock <= nextFire.value
        decreases !destroyed, if nextFire.Some? then lastTouch + config.disconnect - nextFire.value else 0
      {
        HandleIdleTimeout(nextFire.value);
      }
    }
  }
}
