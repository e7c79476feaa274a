/** Message delivery records of the peer score: one record's life. */
module DeliveryRecords {
  import opened Basics
  import opened Ids

  datatype Status = Unknown | Valid | Invalid | Ignored | Throttled

  /** `peers` is None once the map has been released. */
  datatype Record = Record(status: Status, firstSeen: Time, validated: Option<Time>, peers: Option<set<Peer>>)

  /** The counters that are to be incremented, by peer.  A near-first delivery is
      `early` if it came before the verdict, and counts whatever its delay. */
  datatype Marks = Marks(first: multiset<Peer>, early: multiset<Peer>, late: multiset<Peer>, invalid: multiset<Peer>)

  const NONE := Marks(multiset{}, multiset{}, multiset{}, multiset{})

  function Plus(a: Marks, b: Marks): Marks {
    Marks(a.first + b.first, a.early + b.early, a.late + b.late, a.invalid + b.invalid)
  }

  function NearFirst(m: Marks, p: Peer): nat { m.early[p] + m.late[p] }

  datatype Reason = Clearly | Blacklisted | QueueFull | ValidationThrottled | ValidationIgnored | ValidationFailed

  datatype Event =
    | Validating
    | Deliver(from: Peer, at: Time)
    | Reject(from: Peer, reason: Reason)
    | Duplicate(from: Peer)

  function NewRecord(now: Time): Record { Record(Unknown, now, None, Some({})) }

  function Delivered(r: Record, from: Peer, at: Time): Record {
    if r.status != Unknown then r else r.(status := Valid, validated := Some(at))
  }

  function DeliverMarks(r: Record, from: Peer): Marks {
    var m := NONE.(first := multiset{from});
    if r.status != Unknown || r.peers.None? then m else m.(early := multiset(r.peers.value - {from}))
  }

  function Rejected(r: Record, reason: Reason): Record {
    if r.status != Unknown then r
    else match reason
      case ValidationThrottled => r.(status := Throttled, peers := None)
      case ValidationIgnored => r.(status := Ignored, peers := None)
      case ValidationFailed => r.(status := Invalid, peers := None)
      case _ => r
  }

  function RejectMarks(r: Record, from: Peer, reason: Reason): Marks {
    if reason == Clearly then NONE.(invalid := multiset{from})
    else if reason == ValidationFailed && r.status == Unknown && r.peers.Some?
    then NONE.(invalid := multiset{from} + multiset(r.peers.value))
    else NONE
  }

  function Duplicated(r: Record, from: Peer): Record {
    if r.peers.Some? && (r.status == Unknown || r.status == Valid) then r.(peers := Some(r.peers.value + {from})) else r
  }

  function DuplicateMarks(r: Record, from: Peer): Marks {
    if r.peers.Some? && from in r.peers.value then NONE
    else if r.status == Valid then NONE.(late := multiset{from})
    else if r.status == Invalid then NONE.(invalid := multiset{from})
    else NONE
  }

  function After(r: Record, e: Event): Record {
    match e
    case Validating => r
    case Deliver(from, at) => Delivered(r, from, at)
    case Reject(_, reason) => Rejected(r, reason)
    case Duplicate(from) => Duplicated(r, from)
  }

  function MarksOf(r: Record, e: Event): Marks {
    match e
    case Validating => NONE
    case Deliver(from, _) => DeliverMarks(r, from)
    case Reject(from, reason) => RejectMarks(r, from, reason)
    case Duplicate(from) => DuplicateMarks(r, from)
  }

  /** A record's life: everything that happens to one message id until it expires. */
  function Life(es: seq<Event>, born: Time): Record {
    if es == [] then NewRecord(born) else After(Life(es[..|es| - 1], born), es[|es| - 1])
  }

  function AllMarks(es: seq<Event>, born: Time): Marks {
    if es == [] then NONE
    else Plus(AllMarks(es[..|es| - 1], born), MarksOf(Life(es[..|es| - 1], born), es[|es| - 1]))
  }

  // ------------------------------------------------------------ what holds of every life

  predicate Released(r: Record) { r.status == Invalid || r.status == Ignored || r.status == Throttled }

  /** The peers map is released exactly with a verdict other than valid, so it is
      never written when it is gone. */
  lemma {:induction false} ReleasedExactly(es: seq<Event>, born: Time)
    ensures Life(es, born).peers.None? <==> Released(Life(es, born))
  {
    if es != [] {
      ReleasedExactly(es[..|es| - 1], born);
    }
  }

  /** The status leaves Unknown at most once. */
  lemma {:induction false} VerdictIsFinal(es: seq<Event>, more: seq<Event>, born: Time)
    requires Life(es, born).status != Unknown
    ensures Life(es + more, born).status == Life(es, born).status
  {
    if more == [] {
      assert es + more == es;
    } else {
      VerdictIsFinal(es, more[..|more| - 1], born);
      assert (es + more)[..|es + more| - 1] == es + more[..|more| - 1];
    }
  }

  function Senders(es: seq<Event>): set<Peer> {
    if es == [] then {}
    else Senders(es[..|es| - 1]) + (if es[|es| - 1].Duplicate? then {es[|es| - 1].from} else {})
  }

  predicate Decides(e: Event) {
    || e.Deliver?
    || (e.Reject? && (e.reason == ValidationThrottled || e.reason == ValidationIgnored || e.reason == ValidationFailed))
  }

  /** The first event with a verdict, or |es|. */
  function Decision(es: seq<Event>): (d: nat)
    ensures d <= |es| && (d < |es| ==> Decides(es[d])) && forall i :: 0 <= i < d ==> !Decides(es[i])
  {
    if es == [] then 0
    else
      var d := Decision(es[..|es| - 1]);
      if d < |es| - 1 then d else if Decides(es[|es| - 1]) then |es| - 1 else |es|
  }

  /** Who gets a near-first credit for a message that turned out valid: whoever sent
      it before the verdict, except the peer it is credited to as first, and
      whoever sent it only afterwards, without exception. */
  predicate Credited(es: seq<Event>, p: Peer) {
    var d := Decision(es);
    && d < |es| && es[d].Deliver?
    && (if p in Senders(es[..d]) then p != es[d].from else p in Senders(es))
  }

  predicate Follows(es: seq<Event>, r: Record) {
    var d := Decision(es);
    && (r.status == Unknown <==> d == |es|)
    && (r.status == Valid <==> d < |es| && es[d].Deliver?)
    && (r.peers.None? <==> Released(r))
    && (r.peers.Some? ==> r.peers.value == Senders(es))
  }

  lemma {:induction false} LifeFollows(es: seq<Event>, born: Time)
    ensures Follows(es, Life(es, born))
  {
    if es != [] {
      LifeFollows(es[..|es| - 1], born);
    }
  }

  lemma DecisionAppend(es: seq<Event>)
    requires es != []
    ensures var init := es[..|es| - 1];
            && (Decision(init) < |init| ==>
                  && Decision(es) == Decision(init) && es[..Decision(es)] == init[..Decision(init)]
                  && es[Decision(es)] == init[Decision(init)])
            && (Decision(init) == |init| && Decides(es[|es| - 1]) ==>
                  Decision(es) == |init| && es[..Decision(es)] == init)
  {
  }

  /** Whether an event brings the credit. */
  predicate Brings(r: Record, e: Event, p: Peer) {
    r.peers.Some? &&
    if e.Deliver? then r.status == Unknown && p in r.peers.value && p != e.from
    else e.Duplicate? && r.status == Valid && e.from == p && p !in r.peers.value
  }

  lemma MarksNearFirst(r: Record, e: Event, p: Peer)
    requires r.peers.None? <==> Released(r)
    ensures NearFirst(MarksOf(r, e), p) == if Brings(r, e, p) then 1 else 0
  {
  }

  lemma CreditedAppend(es: seq<Event>, r: Record, p: Peer)
    requires es != [] && Follows(es[..|es| - 1], r)
    ensures Brings(r, es[|es| - 1], p) ==> !Credited(es[..|es| - 1], p)
    ensures Credited(es, p) <==> Credited(es[..|es| - 1], p) || Brings(r, es[|es| - 1], p)
  {
    var init := es[..|es| - 1];
    DecisionAppend(es);
    assert init[..|init|] == init;
    SendersGrow(init, Decision(init));
  }

  lemma {:induction false} SendersGrow(es: seq<Event>, d: nat)
    requires d <= |es|
    ensures Senders(es[..d]) <= Senders(es)
  {
    if d < |es| {
      SendersGrow(es[..|es| - 1], d);
      assert es[..|es| - 1][..d] == es[..d];
    } else {
      assert es[..d] == es;
    }
  }

  /** Near-first credit is given at most once per record and peer, and exactly to
      these peers. */
  lemma {:induction false} CreditedExactly(es: seq<Event>, born: Time, p: Peer)
    ensures NearFirst(AllMarks(es, born), p) == if Credited(es, p) then 1 else 0
  {
    if es != [] {
      var init := es[..|es| - 1];
      CreditedExactly(init, born, p);
      LifeFollows(init, born);
      MarksNearFirst(Life(init, born), es[|es| - 1], p);
      CreditedAppend(es, Life(init, born), p);
    }
  }

  /** So a peer that delivered a message first and sends it again after the verdict
      is credited twice: as first, and as near-first. */
  lemma FirstDelivererCountsTwice(before: seq<Event>, from: Peer, at: Time, born: Time)
    requires Decision(before) == |before| && from !in Senders(before)
    ensures var es := before + [Deliver(from, at)] + [Duplicate(from)];
            from in AllMarks(es, born).first && NearFirst(AllMarks(es, born), from) == 1
  {
    var one := before + [Deliver(from, at)];
    var es := one + [Duplicate(from)];
    assert one[..|one| - 1] == before && es[..|es| - 1] == one;
    assert one[|before|] == Deliver(from, at);
    DecisionAppend(one);
    DecisionAppend(es);
    assert es[..|before|] == before;
    CreditedExactly(es, born, from);
  }

  /** Everybody who forwarded an invalid message is penalised when the verdict
      comes, and every later forwarder at once. */
  lemma {:induction false} InvalidIsPenalised(es: seq<Event>, born: Time, p: Peer)
    requires es != [] && Life(es, born).status == Invalid && p in Senders(es)
    ensures p in AllMarks(es, born).invalid
    decreases |es|
  {
    var init, e := es[..|es| - 1], es[|es| - 1];
    LifeNext(es, born);
    LifeFollows(init, born);
    SendersNext(es, p);
    hide Life, AllMarks, Senders, Follows;
    var r := Life(init, born);
    if r.status == Invalid && p in Senders(init) {
      InvalidIsPenalised(init, born, p);
    } else {
      PenalisedNow(r, e, p);
    }
  }

  lemma SendersNext(es: seq<Event>, p: Peer)
    requires es != []
    ensures p in Senders(es) <==> p in Senders(es[..|es| - 1]) || es[|es| - 1] == Duplicate(p)
  {
  }

  /** The event that settles the verdict, or a duplicate afterwards. */
  lemma PenalisedNow(r: Record, e: Event, p: Peer)
    requires After(r, e).status == Invalid && (r.peers.None? <==> Released(r))
    requires e == Duplicate(p) || (r.status != Invalid && r.peers.Some? && p in r.peers.value)
    ensures p in MarksOf(r, e).invalid
  {
  }

  lemma LifeNext(es: seq<Event>, born: Time)
    requires es != []
    ensures var init, e := es[..|es| - 1], es[|es| - 1];
            && Life(es, born) == After(Life(init, born), e)
            && AllMarks(es, born) == Plus(AllMarks(init, born), MarksOf(Life(init, born), e))
  {
  }

  // ------------------------------------------------------------ exact counts

  /** A record knows when it was made and when its message was found valid. */
  lemma {:induction false} VerdictTime(es: seq<Event>, born: Time)
    ensures var r, d := Life(es, born), Decision(es);
            && r.firstSeen == born
            && r.validated == (if d < |es| && es[d].Deliver? then Some(es[d].at) else None)
            && (r.status == Invalid <==> d < |es| && es[d].Reject? && es[d].reason == ValidationFailed)
            && (r.status == Ignored <==> d < |es| && es[d].Reject? && es[d].reason == ValidationIgnored)
            && (r.status == Throttled <==> d < |es| && es[d].Reject? && es[d].reason == ValidationThrottled)
  {
    if es != [] {
      VerdictTime(es[..|es| - 1], born);
      LifeFollows(es[..|es| - 1], born);
      DecisionAppend(es);
    }
  }

  /** How many of the events are of this kind. */
  function Times(es: seq<Event>, kind: Event -> bool): nat {
    if es == [] then 0 else Times(es[..|es| - 1], kind) + if kind(es[|es| - 1]) then 1 else 0
  }

  function DeliveryBy(p: Peer): Event -> bool { (e: Event) => e.Deliver? && e.from == p }

  function CopyBy(p: Peer): Event -> bool { (e: Event) => e == Duplicate(p) }

  function ClearlyBad(p: Peer): Event -> bool { (e: Event) => e == Reject(p, Clearly) }

  /** Every delivery is credited to the peer that it came from. */
  lemma {:induction false} FirstExactly(es: seq<Event>, born: Time, p: Peer)
    ensures AllMarks(es, born).first[p] == Times(es, DeliveryBy(p))
  {
    if es != [] {
      FirstExactly(es[..|es| - 1], born, p);
      OneFirst(Life(es[..|es| - 1], born), es[|es| - 1], p);
      hide Life, MarksOf;
    }
  }

  lemma OneFirst(r: Record, e: Event, p: Peer)
    ensures MarksOf(r, e).first[p] == if e.Deliver? && e.from == p then 1 else 0
  {
  }

  /** The message has been found invalid. */
  predicate Failed(es: seq<Event>) {
    var d := Decision(es); d < |es| && es[d].Reject? && es[d].reason == ValidationFailed
  }

  /** What the verdict that a message is invalid costs a peer: once for delivering it to
      validation, once for having forwarded it before. */
  function VerdictCost(es: seq<Event>, p: Peer): nat
    requires Failed(es)
  {
    var d := Decision(es);
    (if es[d].from == p then 1 else 0) + (if p in Senders(es[..d]) then 1 else 0)
  }

  /** An invalid message costs a peer: once for every clearly bad copy, what the verdict
      says, and once for every copy that it forwards afterwards. */
  lemma {:induction false} PenalisedExactly(es: seq<Event>, born: Time, p: Peer)
    ensures AllMarks(es, born).invalid[p] == Times(es, ClearlyBad(p))
            + if Failed(es) then VerdictCost(es, p) + Times(es[Decision(es)..], CopyBy(p)) else 0
  {
    if es != [] {
      var init, e := es[..|es| - 1], es[|es| - 1];
      PenalisedExactly(init, born, p);
      VerdictTime(init, born);
      LifeFollows(init, born);
      ReleasedExactly(init, born);
      OnePenalty(Life(init, born), e, p);
      DecisionAppend(es);
      FailedNext(es, p);
    }
  }

  lemma OnePenalty(r: Record, e: Event, p: Peer)
    requires r.peers.None? <==> Released(r)
    ensures MarksOf(r, e).invalid[p] ==
            if e == Reject(p, Clearly) then 1
            else if e.Reject? && e.reason == ValidationFailed && r.status == Unknown
            then (if e.from == p then 1 else 0) + (if p in r.peers.value then 1 else 0)
            else if e == Duplicate(p) && r.status == Invalid then 1
            else 0
  {
  }

  /** How the cost of a verdict and of later copies goes on. */
  lemma FailedNext(es: seq<Event>, p: Peer)
    requires es != []
    ensures var init, e := es[..|es| - 1], es[|es| - 1];
            && (Failed(init) ==> Failed(es) && VerdictCost(es, p) == VerdictCost(init, p)
                                 && Times(es[Decision(es)..], CopyBy(p))
                                    == Times(init[Decision(init)..], CopyBy(p)) + if e == Duplicate(p) then 1 else 0)
            && (!Failed(init) && Failed(es) ==>
                  && Decision(es) == |init| && e.Reject? && e.reason == ValidationFailed && Decision(init) == |init|
                  && VerdictCost(es, p) == (if e.from == p then 1 else 0) + (if p in Senders(init) then 1 else 0)
                  && Times(es[Decision(es)..], CopyBy(p)) == 0)
            && (!Failed(init) && e.Reject? && e.reason == ValidationFailed && Decision(init) == |init| ==> Failed(es))
  {
    var init, e := es[..|es| - 1], es[|es| - 1];
    DecisionAppend(es);
    if Failed(init) {
      var d := Decision(init);
      assert es[..d] == init[..d] && es[d..][..|es[d..]| - 1] == init[d..];
    } else if Failed(es) {
      assert es[|init|..] == [e] && [e][..0] == [];
    }
  }
}
