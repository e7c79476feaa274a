/** What a peer's IDONTWANTs make us remember, told by the messages alone. */
module IDontWantExact {
  import opened Basics
  import opened Ids
  import opened Wire
  import opened IDontWant

  // ------------------------------------------------------------ checksums

  /** Short ids are told apart without any hash. */
  lemma ShortIdsDiffer(a: Bytes, b: Bytes, sha256: Bytes -> Bytes)
    requires 0 < |a| <= 32 && ComputeChecksum(a, sha256) == ComputeChecksum(b, sha256)
    ensures a == b
  {
    var ca, cb := ComputeChecksum(a, sha256), ComputeChecksum(b, sha256);
    assert a == ca.payload[..ca.length];
    if 0 < |b| <= 32 {
      assert b == cb.payload[..cb.length];
    }
  }

  /** Long ids are told apart exactly as far as the hash does. */
  lemma LongIdsDifferExactly(a: Bytes, b: Bytes, sha256: Bytes -> Bytes)
    requires |a| > 32 && |b| > 32
    ensures ComputeChecksum(a, sha256) == ComputeChecksum(b, sha256) <==> sha256(a) == sha256(b)
  {
  }

  // ------------------------------------------------------------ which ids are taken

  /** How many ids come in the lists before the a-th. */
  function Before(lists: seq<seq<Bytes>>, a: nat): nat
    requires a <= |lists|
  {
    if a == 0 then 0 else Before(lists, a - 1) + |lists[a - 1]|
  }

  /** The id is among the first so many of the message. */
  ghost predicate Named(lists: seq<seq<Bytes>>, mid: Bytes, max: int) {
    exists a, b :: 0 <= a < |lists| && 0 <= b < |lists[a]| && lists[a][b] == mid && Before(lists, a) + b < max
  }

  lemma {:induction false} FlatAt(lists: seq<seq<Bytes>>, a: nat, b: nat)
    requires a < |lists| && b < |lists[a]|
    ensures Before(lists, a) + b < |Flat(lists)| && Flat(lists)[Before(lists, a) + b] == lists[a][b]
  {
    var init := lists[..|lists| - 1];
    BeforeFlat(lists);
    if a < |init| {
      FlatAt(init, a, b);
      BeforeSame(lists, init, a);
    }
  }

  lemma {:induction false} BeforeSame(lists: seq<seq<Bytes>>, init: seq<seq<Bytes>>, a: nat)
    requires a <= |init| <= |lists| && init == lists[..|init|]
    ensures Before(lists, a) == Before(init, a)
  {
    if a > 0 {
      BeforeSame(lists, init, a - 1);
    }
  }

  lemma BeforeFlat(lists: seq<seq<Bytes>>)
    requires lists != []
    ensures Before(lists, |lists| - 1) == |Flat(lists[..|lists| - 1])|
  {
    var init := lists[..|lists| - 1];
    FlatLength(init);
    BeforeSame(lists, init, |init|);
  }

  lemma {:induction false} FlatLength(lists: seq<seq<Bytes>>)
    ensures |Flat(lists)| == Before(lists, |lists|)
  {
    if lists != [] {
      var init := lists[..|lists| - 1];
      FlatLength(init);
      BeforeSame(lists, init, |init|);
    }
  }

  lemma {:induction false} FlatFrom(lists: seq<seq<Bytes>>, k: nat) returns (a: nat, b: nat)
    requires k < |Flat(lists)|
    ensures a < |lists| && b < |lists[a]| && Before(lists, a) + b == k
  {
    var init := lists[..|lists| - 1];
    BeforeFlat(lists);
    if k < |Flat(init)| {
      a, b := FlatFrom(init, k);
      BeforeSame(lists, init, a);
    } else {
      a, b := |init|, k - |Flat(init)|;
    }
  }

  lemma TakenExactly(lists: seq<seq<Bytes>>, params: Params, mid: Bytes)
    ensures mid in Taken(lists, params) <==> Named(lists, mid, params.maxLength)
  {
    var n := Min(|Flat(lists)|, Max(params.maxLength, 0));
    if mid in Taken(lists, params) {
      var k :| 0 <= k < n && Flat(lists)[k] == mid;
      var a, b := FlatFrom(lists, k);
      FlatAt(lists, a, b);
    }
    if Named(lists, mid, params.maxLength) {
      var a, b :| && 0 <= a < |lists| && 0 <= b < |lists[a]| && lists[a][b] == mid
                  && Before(lists, a) + b < params.maxLength;
      FlatAt(lists, a, b);
      assert Taken(lists, params)[Before(lists, a) + b] == mid;
    }
  }

  // ------------------------------------------------------------ how many messages are heard

  /** IDONTWANT messages of the peer since the last heartbeat. */
  function Sent(steps: seq<Step>, p: Peer): nat {
    if steps == [] || steps[|steps| - 1].Heartbeat? then 0
    else
      var step := steps[|steps| - 1];
      Sent(steps[..|steps| - 1], p) + if step.Recv? && step.p == p && step.lists != [] then 1 else 0
  }

  lemma StepCount(s: State, step: Step, params: Params, sha256: Bytes -> Bytes, p: Peer)
    ensures CountOf(Apply(s, step, params, sha256), p) ==
            if step.Heartbeat? then 0
            else CountOf(s, p) + if step.Recv? && step.p == p && step.lists != [] && CountOf(s, p) < params.maxMessages
                                 then 1 else 0
  {
    hide AddAll, Checksums, Taken, Beat;
  }

  /** In every run the messages of a peer are heard up to the limit per heartbeat. */
  lemma {:induction false} HeardExactly(states: seq<State>, steps: seq<Step>, params: Params, sha256: Bytes -> Bytes,
                                        j: nat, p: Peer)
    requires IsRun(states, steps, params, sha256) && j < |states|
    ensures CountOf(states[j], p) == Min(Sent(steps[..j], p), Max(params.maxMessages, 0))
  {
    hide Apply;
    if j > 0 {
      HeardExactly(states, steps, params, sha256, j - 1, p);
      StepCount(states[j - 1], steps[j - 1], params, sha256, p);
      assert steps[..j][..j - 1] == steps[..j - 1] && steps[..j][j - 1] == steps[j - 1];
    }
  }

  // ------------------------------------------------------------ what is remembered

  /** The i-th step is a message of the peer that is heard and names an id with this
      checksum early enough. */
  ghost predicate Names(steps: seq<Step>, i: nat, p: Peer, c: Checksum, params: Params, sha256: Bytes -> Bytes)
    requires i < |steps|
  {
    && steps[i].Recv? && steps[i].p == p && Sent(steps[..i], p) < params.maxMessages
    && exists mid :: Named(steps[i].lists, mid, params.maxLength) && ComputeChecksum(mid, sha256) == c
  }

  predicate NotClosed(steps: seq<Step>, i: nat, j: nat, p: Peer)
    requires j <= |steps|
  {
    forall k :: i <= k < j ==> steps[k] != Close(p)
  }

  /** Not over yet: no heartbeat since, or fewer than the TTL. */
  predicate InTime(beats: nat, ttl: int) { beats == 0 || beats < ttl }

  ghost predicate Remembered(steps: seq<Step>, i: nat, j: nat, p: Peer, c: Checksum, params: Params,
                             sha256: Bytes -> Bytes)
    requires i < j <= |steps|
  {
    && Names(steps, i, p, c, params, sha256) && NotClosed(steps, i + 1, j, p)
    && InTime(Beats(steps[i + 1..j]), params.ttl)
  }

  lemma ChecksumsHas(lists: seq<seq<Bytes>>, params: Params, sha256: Bytes -> Bytes, c: Checksum)
    ensures c in Checksums(Taken(lists, params), sha256) <==>
            exists mid :: Named(lists, mid, params.maxLength) && ComputeChecksum(mid, sha256) == c
  {
    hide Taken, Named, ComputeChecksum;
    var taken := Taken(lists, params);
    var cs := Checksums(taken, sha256);
    if c in cs {
      var k :| 0 <= k < |cs| && cs[k] == c;
      TakenExactly(lists, params, taken[k]);
      assert ComputeChecksum(taken[k], sha256) == c;
    }
    if mid :| Named(lists, mid, params.maxLength) && ComputeChecksum(mid, sha256) == c {
      TakenExactly(lists, params, mid);
      var k :| 0 <= k < |taken| && taken[k] == mid;
      assert cs[k] == c;
    }
  }

  /** What one step does to one entry. */
  lemma StepEntry(s: State, step: Step, params: Params, sha256: Bytes -> Bytes, p: Peer, c: Checksum)
    ensures var m, m' := EntriesOf(s, p), EntriesOf(Apply(s, step, params, sha256), p);
            match step
            case Recv(q, lists) =>
              var named := q == p && CountOf(s, p) < params.maxMessages && c in Checksums(Taken(lists, params), sha256);
              (c in m' <==> c in m || named) && (c in m' ==> m'[c] == if named then params.ttl else m[c])
            case Heartbeat => (c in m' <==> c in m && m[c] > 1) && (c in m' ==> m'[c] == m[c] - 1)
            case Close(q) => if q == p then c !in m' else m' == m
  {
    match step
    case Recv(q, lists) =>
      NothingTaken(lists, params, sha256);
      AddAllAt(EntriesOf(s, q), Checksums(Taken(lists, params), sha256), params.ttl, c);
    case Heartbeat =>
      assert EntriesOf(Beaten(s), p) == Beat(EntriesOf(s, p));
    case Close(_) =>
  }

  lemma NothingTaken(lists: seq<seq<Bytes>>, params: Params, sha256: Bytes -> Bytes)
    ensures lists == [] || Taken(lists, params) == [] ==> Checksums(Taken(lists, params), sha256) == []
  {
  }

  lemma BeatsNext(steps: seq<Step>, i: nat, j: nat)
    requires i < j <= |steps|
    ensures Beats(steps[i..j]) == Beats(steps[i..j - 1]) + if steps[j - 1].Heartbeat? then 1 else 0
  {
    assert steps[i..j][..j - i - 1] == steps[i..j - 1] && steps[i..j][j - i - 1] == steps[j - 1];
  }

  lemma NamesIs(states: seq<State>, steps: seq<Step>, params: Params, sha256: Bytes -> Bytes, i: nat, p: Peer,
                c: Checksum)
    requires IsRun(states, steps, params, sha256) && i < |steps|
    ensures Names(steps, i, p, c, params, sha256) <==>
            && steps[i].Recv? && steps[i].p == p && CountOf(states[i], p) < params.maxMessages
            && c in Checksums(Taken(steps[i].lists, params), sha256)
  {
    hide Apply, Checksums, Taken, Named, ComputeChecksum;
    HeardExactly(states, steps, params, sha256, i, p);
    if steps[i].Recv? {
      ChecksumsHas(steps[i].lists, params, sha256, c);
    }
  }

  /** What was named and is not over is remembered, with at least the time it has left. */
  lemma {:induction false} NamedIsRemembered(states: seq<State>, steps: seq<Step>, params: Params,
                                             sha256: Bytes -> Bytes, i: nat, j: nat, p: Peer, c: Checksum)
    requires IsRun(states, steps, params, sha256) && i < j < |states|
    requires Remembered(steps, i, j, p, c, params, sha256)
    ensures var m := EntriesOf(states[j], p); c in m && m[c] >= params.ttl - Beats(steps[i + 1..j])
    decreases j
  {
    hide Apply, Names, EntriesOf, Checksums, Taken, CountOf;
    StepEntry(states[j - 1], steps[j - 1], params, sha256, p, c);
    if j == i + 1 {
      NamesIs(states, steps, params, sha256, i, p, c);
      assert steps[i + 1..j] == [];
    } else {
      BeatsNext(steps, i + 1, j);
      NamedIsRemembered(states, steps, params, sha256, i, j - 1, p, c);
    }
  }

  /** What is remembered was named, and has exactly the time left since then. */
  lemma {:induction false} RememberedWasNamed(states: seq<State>, steps: seq<Step>, params: Params,
                                              sha256: Bytes -> Bytes, j: nat, p: Peer, c: Checksum) returns (i: nat)
    requires IsRun(states, steps, params, sha256) && j < |states| && c in EntriesOf(states[j], p)
    ensures i < j && Remembered(steps, i, j, p, c, params, sha256)
    ensures EntriesOf(states[j], p)[c] == params.ttl - Beats(steps[i + 1..j])
  {
    hide Apply, Names, Checksums, Taken, CountOf;
    var step := steps[j - 1];
    StepEntry(states[j - 1], step, params, sha256, p, c);
    NamesIs(states, steps, params, sha256, j - 1, p, c);
    if Names(steps, j - 1, p, c, params, sha256) {
      i := j - 1;
      assert steps[j..j] == [];
    } else {
      i := RememberedWasNamed(states, steps, params, sha256, j - 1, p, c);
      BeatsNext(steps, i + 1, j);
    }
  }

  /** In every run a peer's entry for a checksum is there exactly if the peer named such
      an id in a message that was heard, within the length limit, has not closed its
      stream since, and fewer heartbeats than the TTL have passed. */
  lemma RemembersExactly(states: seq<State>, steps: seq<Step>, params: Params, sha256: Bytes -> Bytes, j: nat, p: Peer,
                         c: Checksum)
    requires IsRun(states, steps, params, sha256) && j < |states|
    ensures c in EntriesOf(states[j], p) <==> exists i: nat :: i < j && Remembered(steps, i, j, p, c, params, sha256)
  {
    hide Remembered, EntriesOf, Apply;
    if c in EntriesOf(states[j], p) {
      var i := RememberedWasNamed(states, steps, params, sha256, j, p, c);
    }
    if i: nat :| i < j && Remembered(steps, i, j, p, c, params, sha256) {
      NamedIsRemembered(states, steps, params, sha256, i, j, p, c);
    }
  }
}
