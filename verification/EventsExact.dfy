/** Membership, consumers and events of a topic, told by the calls alone. */
module EventsExact {
  import opened Ids
  import opened EventLog

  /** In the topic: the last word about the peer was a subscription, or there was none
      and it was there before. */
  predicate Present(steps: seq<Step>, p: Peer, before: bool) {
    if steps == [] then before
    else
      var step := steps[|steps| - 1];
      if step.SubOpt? && step.p == p then step.subscribe
      else if step == ClosedStream(p) then false
      else Present(steps[..|steps| - 1], p, before)
  }

  datatype Place = Outside | Looking | Blocked

  /** Where the last call of a consumer left it. */
  function Whereabouts(steps: seq<Step>, c: Consumer): Place {
    if steps == [] then Outside
    else
      var step := steps[|steps| - 1];
      if step == Call(c) || step == Wake(c) then Looking
      else if step == Block(c) then Blocked
      else if (step.Pull? && step.c == c) || step == GiveUp(c) then Outside
      else Whereabouts(steps[..|steps| - 1], c)
  }

  function PlaceOf(s: State, c: Consumer): Place {
    if c in s.pulling then Looking else if c in s.waiting then Blocked else Outside
  }

  function Pulls(steps: seq<Step>): nat {
    if steps == [] then 0 else Pulls(steps[..|steps| - 1]) + if steps[|steps| - 1].Pull? then 1 else 0
  }

  lemma StepExactly(s: State, step: Step, p: Peer, c: Consumer)
    requires Enabled(s, step) && s.pulling !! s.waiting
    ensures var s' := Apply(s, step);
            && (p in s'.members <==> if step.SubOpt? && step.p == p then step.subscribe
                                     else p in s.members && step != ClosedStream(p))
            && PlaceOf(s', c) == (if step == Call(c) || step == Wake(c) then Looking
                                  else if step == Block(c) then Blocked
                                  else if (step.Pull? && step.c == c) || step == GiveUp(c) then Outside
                                  else PlaceOf(s, c))
            && |s'.emitted| == |s.emitted| + (if step.Pull? then 1 else 0)
            && s'.pulling !! s'.waiting
  {
  }

  /** In every run: members are those that the calls make present, every consumer is
      where its last call left it, and every pull has returned one event. */
  lemma {:induction false} RunExactly(states: seq<State>, steps: seq<Step>, j: nat, p: Peer, c: Consumer)
    requires IsRun(states, steps) && j < |states|
    ensures p in states[j].members <==> Present(steps[..j], p, p in states[0].members)
    ensures PlaceOf(states[j], c) == Whereabouts(steps[..j], c)
    ensures |states[j].emitted| == Pulls(steps[..j]) && states[j].pulling !! states[j].waiting
  {
    hide Apply, Enabled;
    if j > 0 {
      RunExactly(states, steps, j - 1, p, c);
      StepExactly(states[j - 1], steps[j - 1], p, c);
      assert steps[..j][..j - 1] == steps[..j - 1] && steps[..j][j - 1] == steps[j - 1];
    }
  }

  /** So whoever has pulled all there is knows exactly who is in the topic. */
  lemma DrainedKnows(states: seq<State>, steps: seq<Step>, j: nat, p: Peer)
    requires IsRun(states, steps) && j < |states| && states[j].log == map[]
    ensures Believed(states[j].emitted, p) <==> Present(steps[..j], p, p in states[0].members)
  {
    hide Apply, Enabled;
    RunInv(states, steps, j);
    assert Accounted(states[j], p);
    RunExactly(states, steps, j, p, ConsumerId(0));
  }

  /** An event is pending about a peer exactly if what it was last told of differs from
      what is so: joining and leaving in between cancel. */
  lemma PendingExactly(states: seq<State>, steps: seq<Step>, j: nat, p: Peer)
    requires IsRun(states, steps) && j < |states|
    ensures var present, told := Present(steps[..j], p, p in states[0].members), Believed(states[j].emitted, p);
            && (p in states[j].log <==> present != told)
            && (p in states[j].log ==> states[j].log[p] == if present then PeerJoin else PeerLeave)
  {
    hide Apply, Enabled;
    RunInv(states, steps, j);
    assert Accounted(states[j], p);
    RunExactly(states, steps, j, p, ConsumerId(0));
  }

  /** One signal wakes one consumer: the next one needs another. */
  lemma WakesOnce(s: State, c: Consumer, d: Consumer)
    requires Enabled(s, Wake(c))
    ensures !Enabled(Apply(s, Wake(c)), Wake(d))
  {
  }
}
