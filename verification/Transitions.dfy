/** Which transitions the two updaters accept, written out. */
module Transitions {
  import opened PowerModes

  /** The accepted changes of the MAC state. */
  const MAC_CHANGES: set<(MacState, MacState)> := {
    (START, INITIALIZATION), (MEDIUM_ACCESS, INITIALIZATION),
    (INITIALIZATION, SYNCHRONIZATION), (TIMESLOT_AND_CHANNEL_SELECTION, SYNCHRONIZATION),
    (MEDIUM_ACCESS, SYNCHRONIZATION), (FINISH, SYNCHRONIZATION), (NONE, SYNCHRONIZATION),
    (SYNCHRONIZATION, TIMESLOT_AND_CHANNEL_SELECTION),
    (TIMESLOT_AND_CHANNEL_SELECTION, MEDIUM_ACCESS),
    (MEDIUM_ACCESS, FINISH)
  }

  /** The MAC updater moves to the proposed state exactly for these changes; otherwise it stays and says why. */
  lemma MacUpdateIff(current: MacState, next: MacState)
    ensures var (state, verdict) := UpdateMac(current, next);
      && (verdict == TransitionSuccess <==> (current, next) in MAC_CHANGES)
      && state == (if (current, next) in MAC_CHANGES then next else current)
      && (verdict == NoTransition <==> current == next || next == NONE)
      && (verdict == InvalidState <==> current != next && next == START)
  {
  }

  /** The accepted changes of the power mode. */
  const POWER_CHANGES: set<(PowerMode, PowerMode)> := {
    (STARTP, PASSIVE), (ACTIVE, PASSIVE), (TRANSMIT, PASSIVE), (RECEIVE, PASSIVE), (NONEP, PASSIVE), (IDLEP, PASSIVE),
    (PASSIVE, ACTIVE),
    (ACTIVE, TRANSMIT),
    (ACTIVE, RECEIVE),
    (ACTIVE, FINISHP), (TRANSMIT, FINISHP), (RECEIVE, FINISHP), (NONEP, FINISHP), (IDLEP, FINISHP)
  }

  /** The same for the power-mode updater, which goes to NONEP without calling it a transition. */
  lemma PowerUpdateIff(current: PowerMode, next: PowerMode)
    ensures var (state, verdict) := UpdatePower(current, next);
      && (verdict == TransitionSuccess <==> (current, next) in POWER_CHANGES)
      && state == (if (current, next) in POWER_CHANGES || next == NONEP then next else current)
      && (verdict == NoTransition <==> current == next || next == NONEP)
      && (verdict == InvalidState <==> current != next && (next == STARTP || next == IDLEP))
  {
  }
}
