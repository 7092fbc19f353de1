/** Channel-user modes and their order (irc/modes/modes.go, irc/modes.go, irc/channel.go). */
module ChannelModes {

  /** NoMode is the zero mode: no channel-user mode at all. */
  datatype Mode = ChannelFounder | ChannelAdmin | ChannelOperator | Halfop | Voice | NoMode

  /** In descending order of precedence. */
  const CHANNEL_USER_MODES: seq<Mode> := [ChannelFounder, ChannelAdmin, ChannelOperator, Halfop, Voice]

  function Rank(mode: Mode): nat {
    match mode
    case ChannelFounder => 5
    case ChannelAdmin => 4
    case ChannelOperator => 3
    case Halfop => 2
    case Voice => 1
    case NoMode => 0
  }

  /** channelUserModeHasPrivsOver: whether a client may grant or take `target`, or kick its holders. */
  predicate HasPrivsOver(mode: Mode, target: Mode) {
    match mode
    case ChannelFounder => true
    case ChannelAdmin => target != ChannelFounder && target != ChannelAdmin
    case ChannelOperator => target != ChannelFounder && target != ChannelAdmin
    case Halfop => target == Voice || target == NoMode
    case _ => false
  }

  /** The highest rank that a client of rank `m` can hand out. */
  function Reach(m: nat): nat {
    if m >= 5 then m else if m >= 3 then 3 else if m == 2 then 1 else 0
  }

  /** Founders have them over everybody, admins and operators over operators and below, halfops over voice and
      below. */
  lemma {:induction false} PrivsAreRanks(mode: Mode, target: Mode)
    ensures HasPrivsOver(mode, target) <==> Rank(mode) >= Rank(Halfop) && Rank(target) <= Reach(Rank(mode))
    ensures HasPrivsOver(mode, target) <==>
              || mode == ChannelFounder
              || (mode in {ChannelAdmin, ChannelOperator} && target in {ChannelOperator, Halfop, Voice, NoMode})
              || (mode == Halfop && target in {Voice, NoMode})
  {
    match mode { case ChannelFounder => case ChannelAdmin => case ChannelOperator => case _ => }
  }

  /** Whoever ranks no higher can do no more. */
  lemma {:induction false} HigherHasMorePrivs(mode: Mode, target: Mode, m: nat)
    requires HasPrivsOver(mode, target) && Rank(mode) <= m
    ensures Rank(target) <= Reach(m) <= m
  {
    PrivsAreRanks(mode, target);
  }

  /** The most privileged of a set of modes. */
  function Highest(modes: set<Mode>): (mode: Mode)
    ensures mode == NoMode || mode in modes
    ensures forall other :: other in modes ==> Rank(other) <= Rank(mode)
  {
    if ChannelFounder in modes then ChannelFounder
    else if ChannelAdmin in modes then ChannelAdmin
    else if ChannelOperator in modes then ChannelOperator
    else if Halfop in modes then Halfop
    else if Voice in modes then Voice
    else NoMode
  }

  lemma {:induction false} InOrder()
    ensures |CHANNEL_USER_MODES| == 5
    ensures forall i :: 0 <= i < 5 ==> Rank(CHANNEL_USER_MODES[i]) == 5 - i
  {
  }

  /** umodeGreaterThan: a walk down the list, until either of the two is met. */
  method UmodeGreaterThan(l: Mode, r: Mode) returns (greater: bool)
    ensures greater <==> Rank(l) > Rank(r)
  {
    InOrder();
    for i := 0 to |CHANNEL_USER_MODES|
      invariant Rank(l) <= 5 - i && Rank(r) <= 5 - i
    {
      var mode := CHANNEL_USER_MODES[i];
      if l == mode && r != mode {
        return true;
      } else if r == mode {
        return false;
      }
    }
    return false;
  }

  /** HighestChannelUserMode: the first of the list that is in the set. */
  method HighestChannelUserMode(modes: set<Mode>) returns (result: Mode)
    ensures result == Highest(modes)
  {
    InOrder();
    for i := 0 to |CHANNEL_USER_MODES|
      invariant forall mode :: mode in modes ==> Rank(mode) <= 5 - i
    {
      if CHANNEL_USER_MODES[i] in modes {
        return CHANNEL_USER_MODES[i];
      }
    }
    return NoMode;
  }
}
