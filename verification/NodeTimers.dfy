/**
 * The set of timeouts a node holds in module PowerModes is what the bank of module Timeouts calls its live handles:
 * setting, releasing and asking do the same to both.
 */
module NodeTimers {
  import opened Wrappers
  import opened PowerModes
  import T = Timeouts

  /** In a safe bank between two calls the slots in use are the live handles. */
  lemma UsedIsLive(s: T.State, h: int)
    requires T.Safe(s) && s.main.Idle? && 0 <= h < |s.slots|
    ensures s.slots[h].used <==> h in s.live.Keys
  {
  }

  /** The handle that a node takes is the one that timeout_set takes, and afterwards both hold the same. */
  lemma SetIsLeastFree(s: T.State, wait: int)
    requires T.Safe(s) && s.main.Idle? && wait > 0
    ensures var h, t := LeastFree(s.live.Keys, 0, |s.slots|), T.SetAtOnce(s, wait);
      && t.live.Keys == WithTimer(s.live.Keys, h, |s.slots|)
      && (h != |s.slots| + 1 ==> T.FirstFree(s, h) && t.live == s.live[h := s.now + wait])
      && (h == |s.slots| + 1 ==> t == s)
  {
    var h := LeastFree(s.live.Keys, 0, |s.slots|);
    forall i | 0 <= i < |s.slots|
      ensures s.slots[i].used <==> i in s.live.Keys
    {
      UsedIsLive(s, i);
    }
    if h == |s.slots| + 1 {
      T.SetAtOnceFull(T.Next(s, T.BeginSet(wait)), 0);
    } else {
      LeastFreeIsLeast(s.live.Keys, 0, |s.slots|);
      T.SetAtOnceResult(s, wait, h);
    }
  }

  lemma {:induction false} LeastFreeIsLeast(timers: set<int>, from: nat, timeouts: nat)
    ensures var h := LeastFree(timers, from, timeouts);
      h != timeouts + 1 ==> forall i :: from <= i < h ==> i in timers
    decreases timeouts - from
  {
    if from < timeouts && from in timers {
      LeastFreeIsLeast(timers, from + 1, timeouts);
    }
  }

  /** Releasing a handle takes it out of both, and does nothing to either when it is not held. */
  lemma UnsetIsRemoval(s: T.State, h: int)
    requires T.Safe(s) && s.main.Idle?
    ensures T.Next(s, T.Unset(h)).live.Keys == s.live.Keys - {h}
  {
  }

  /** timeout_passed answers 1 exactly when the node's HasPassed holds, with the PASSED bit for the expiry. */
  lemma PassedIsHasPassed(s: T.State, h: int)
    requires T.Safe(s) && s.main.Idle?
    ensures T.Passed(s, h) == 1 <==> HasPassed(s.live.Keys, h, 0 <= h < |s.slots| && s.slots[h].passed)
  {
    if 0 <= h < |s.slots| {
      UsedIsLive(s, h);
    }
  }
}
