/** One account, one device: orderly runs of the whole system keep at most one open connection per user. */
module OneDevice {
  import opened Wrappers
  import opened SessionStore
  import opened Displacement
  import Heartbeat

  /** Any run the processes may make. */
  ghost predicate Run(config: Heartbeat.Config, states: seq<System>, actions: seq<Action>) {
    && |states| == |actions| + 1 && (exists n: nat :: states[0] == Begin(n))
    && (forall i | 0 <= i < |states| :: Shaped(states[i]))
    && (forall i | 0 <= i < |actions| :: Next(config, states[i], actions[i], states[i + 1]))
  }

  ghost predicate OrderlyRun(config: Heartbeat.Config, states: seq<System>, actions: seq<Action>) {
    Run(config, states, actions) && forall i | 0 <= i < |actions| :: Orderly(states[i], actions[i])
  }

  lemma {:induction false} RunKeepsInv(config: Heartbeat.Config, states: seq<System>, actions: seq<Action>, i: nat)
    requires OrderlyRun(config, states, actions) && i < |states|
    ensures Inv(states[i])
  {
    hide Next;
    hide Orderly;
    hide Core;
    hide Faithful;
    if i == 0 {
      var n: nat :| states[0] == Begin(n);
      BeginInv(n);
    } else {
      RunKeepsInv(config, states, actions, i - 1);
      StepKeepsInv(config, states[i - 1], actions[i - 1], states[i]);
    }
  }

  /**
    One device per account: in every orderly run, at every moment, at most one login of a user holds
    an open connection, across all gateways.
   */
  lemma OneOpenConnectionPerUser(
    config: Heartbeat.Config, states: seq<System>, actions: seq<Action>, i: nat, a: nat, b: nat)
    requires OrderlyRun(config, states, actions) && i < |states|
    requires OpenBound(states[i], a) && OpenBound(states[i], b)
    requires states[i].logins[a].user == states[i].logins[b].user
    ensures a == b
  {
    RunKeepsInv(config, states, actions, i);
    hide OrderlyRun;
    LaterIsClosed(states[i], a, b);
    LaterIsClosed(states[i], b, a);
  }
}
