/** IWANT promises: who promised which message until when, in two nested maps that
    are inverse to each other, and what became of every promise. */
module Promises {
  import opened Ids

  type Promised = map<MsgId, map<Peer, Time>>
  type ByPeer = map<Peer, set<MsgId>>

  predicate Live(pr: Promised, mid: MsgId, p: Peer) { mid in pr && p in pr[mid] }

  predicate Listed(idx: ByPeer, p: Peer, mid: MsgId) { p in idx && mid in idx[p] }

  ghost predicate Inverse(pr: Promised, idx: ByPeer) { forall mid, p :: Live(pr, mid, p) <==> Listed(idx, p, mid) }

  ghost predicate NoEmptySets(idx: ByPeer) { forall p :: p in idx ==> idx[p] != {} }

  ghost predicate NoEmptyMaps(pr: Promised) { forall mid :: mid in pr ==> pr[mid] != map[] }

  ghost predicate Consistent(pr: Promised, idx: ByPeer) { Inverse(pr, idx) && NoEmptySets(idx) && NoEmptyMaps(pr) }

  /** Promises that are live before and after keep their expiry time. */
  ghost predicate SameTimes(was: Promised, pr: Promised) {
    forall m, p :: Live(was, m, p) && Live(pr, m, p) ==> pr[m][p] == was[m][p]
  }

  /** The second index forgets one promise. */
  method ForgetFor(was: ByPeer, p: Peer, mid: MsgId) returns (idx: ByPeer)
    requires NoEmptySets(was)
    ensures NoEmptySets(idx)
    ensures forall q, m :: Listed(idx, q, m) <==> Listed(was, q, m) && !(q == p && m == mid)
  {
    idx := was;
    if p in idx {
      var mids := idx[p] - {mid};
      idx := idx[p := mids];
      if |mids| == 0 {
        idx := idx - {p};
      }
    }
  }

  // ------------------------------------------------------------ broken promises

  predicate Broken(pr: Promised, mid: MsgId, p: Peer, now: Time) { Live(pr, mid, p) && pr[mid][p] < now }

  function BrokenBy(pr: Promised, p: Peer, now: Time, mids: set<MsgId>): set<MsgId> {
    set mid | mid in mids && Broken(pr, mid, p, now)
  }

  /** How many promises of each peer are broken, peers without any left out. */
  ghost predicate Counts(res: map<Peer, nat>, pr: Promised, now: Time, mids: set<MsgId>) {
    forall p :: if BrokenBy(pr, p, now, mids) == {} then p !in res
                else p in res && res[p] == |BrokenBy(pr, p, now, mids)|
  }

  /** The inner loop of GetBrokenPromises, for one message id. */
  method BreakMessage(pr: Promised, mid: MsgId, idxIn: ByPeer, resIn: map<Peer, nat>, now: Time)
    returns (promises: map<Peer, Time>, idx: ByPeer, res: map<Peer, nat>)
    requires mid in pr && NoEmptySets(idxIn)
    ensures promises == map p | p in pr[mid] && !(pr[mid][p] < now) :: pr[mid][p]
    ensures NoEmptySets(idx)
    ensures forall q, m :: Listed(idx, q, m) <==> Listed(idxIn, q, m) && !(m == mid && Broken(pr, mid, q, now))
    ensures forall p :: (p in res <==> p in resIn || Broken(pr, mid, p, now))
    ensures forall p :: p in res ==>
              res[p] == (if p in resIn then resIn[p] else 0) + (if Broken(pr, mid, p, now) then 1 else 0)
  {
    promises, idx, res := pr[mid], idxIn, resIn;
    var rest := promises.Keys;
    while rest != {}
      invariant rest <= pr[mid].Keys && NoEmptySets(idx)
      invariant promises == map p | p in pr[mid] && (p in rest || !(pr[mid][p] < now)) :: pr[mid][p]
      invariant forall q, m :: Listed(idx, q, m) <==>
                  Listed(idxIn, q, m) && !(m == mid && q !in rest && Broken(pr, mid, q, now))
      invariant forall p :: (p in res <==> p in resIn || (p !in rest && Broken(pr, mid, p, now)))
      invariant forall p :: p in res ==>
                  res[p] == (if p in resIn then resIn[p] else 0)
                            + (if p !in rest && Broken(pr, mid, p, now) then 1 else 0)
      decreases rest
    {
      var p :| p in rest;
      rest := rest - {p};
      if pr[mid][p] < now {
        res := res[p := (if p in res then res[p] else 0) + 1];
        promises := promises - {p};
        idx := ForgetFor(idx, p, mid);
      }
    }
  }

  lemma CountsNext(res: map<Peer, nat>, res': map<Peer, nat>, pr: Promised, now: Time, mids: set<MsgId>, mid: MsgId)
    requires Counts(res, pr, now, mids) && mid !in mids
    requires forall p :: (p in res' <==> p in res || Broken(pr, mid, p, now))
    requires forall p :: p in res' ==>
               res'[p] == (if p in res then res[p] else 0) + (if Broken(pr, mid, p, now) then 1 else 0)
    ensures Counts(res', pr, now, mids + {mid})
  {
    forall p
      ensures if BrokenBy(pr, p, now, mids + {mid}) == {} then p !in res'
              else p in res' && res'[p] == |BrokenBy(pr, p, now, mids + {mid})|
    {
      var a, b := BrokenBy(pr, p, now, mids), BrokenBy(pr, p, now, mids + {mid});
      if Broken(pr, mid, p, now) {
        assert b == a + {mid} && mid !in a;
      } else {
        assert b == a;
      }
    }
  }

  /** The first map after the message ids of `visited`. */
  ghost predicate HalfPromised(pr: Promised, was: Promised, visited: set<MsgId>, now: Time) {
    && (forall m, p :: Live(pr, m, p) <==> Live(was, m, p) && !(m in visited && Broken(was, m, p, now)))
    && (forall m, p :: Live(pr, m, p) ==> pr[m][p] == was[m][p])
    && NoEmptyMaps(pr)
    && (forall m :: m in was && m !in visited ==> m in pr && pr[m] == was[m])
  }

  ghost predicate HalfIndex(idx: ByPeer, wasIdx: ByPeer, was: Promised, visited: set<MsgId>, now: Time) {
    && (forall m, p :: Listed(idx, p, m) <==> Listed(wasIdx, p, m) && !(m in visited && Broken(was, m, p, now)))
    && NoEmptySets(idx)
  }

  ghost predicate Halfway(pr: Promised, was: Promised, idx: ByPeer, wasIdx: ByPeer, visited: set<MsgId>, now: Time) {
    HalfPromised(pr, was, visited, now) && HalfIndex(idx, wasIdx, was, visited, now)
  }

  lemma HalfPromisedNext(pr: Promised, was: Promised, visited: set<MsgId>, mid: MsgId, promises: map<Peer, Time>,
                         now: Time)
    requires HalfPromised(pr, was, visited, now) && mid in was && mid !in visited
    requires promises == map p | p in was[mid] && !(was[mid][p] < now) :: was[mid][p]
    ensures HalfPromised(if promises == map[] then pr - {mid} else pr[mid := promises], was, visited + {mid}, now)
  {
    var pr' := if promises == map[] then pr - {mid} else pr[mid := promises];
    forall m, p
      ensures Live(pr', m, p) <==> Live(was, m, p) && !(m in visited + {mid} && Broken(was, m, p, now))
      ensures Live(pr', m, p) ==> pr'[m][p] == was[m][p]
    {
      assert Live(pr, m, p) <==> Live(was, m, p) && !(m in visited && Broken(was, m, p, now));
      if m == mid {
        assert Live(pr', m, p) <==> p in promises;
      } else {
        assert Live(pr', m, p) <==> Live(pr, m, p);
      }
    }
  }

  /** GetBrokenPromises: exactly the expired promises go, and are counted. */
  method BreakPromises(was: Promised, wasIdx: ByPeer, now: Time)
    returns (pr: Promised, idx: ByPeer, res: map<Peer, nat>)
    requires Consistent(was, wasIdx)
    ensures Consistent(pr, idx) && Counts(res, was, now, was.Keys)
    ensures forall m, p :: Live(pr, m, p) <==> Live(was, m, p) && !Broken(was, m, p, now)
    ensures forall m, p :: Live(pr, m, p) ==> pr[m][p] == was[m][p]
  {
    pr, idx, res := was, wasIdx, map[];
    var rest := was.Keys;
    ghost var visited: set<MsgId> := {};
    while rest != {}
      invariant visited + rest == was.Keys && visited !! rest
      invariant Halfway(pr, was, idx, wasIdx, visited, now)
      invariant Counts(res, was, now, visited)
      decreases rest
    {
      var mid :| mid in rest;
      rest := rest - {mid};
      pr, idx, res := BreakOne(pr, idx, res, mid, now, was, wasIdx, visited);
      visited := visited + {mid};
    }
    HalfwayDone(pr, was, idx, wasIdx, visited, now);
    assert visited == was.Keys;
  }

  method BreakOne(prIn: Promised, idxIn: ByPeer, resIn: map<Peer, nat>, mid: MsgId, now: Time,
                  ghost was: Promised, ghost wasIdx: ByPeer, ghost visited: set<MsgId>)
    returns (pr: Promised, idx: ByPeer, res: map<Peer, nat>)
    requires Halfway(prIn, was, idxIn, wasIdx, visited, now) && Counts(resIn, was, now, visited)
    requires mid in was && mid !in visited
    ensures Halfway(pr, was, idx, wasIdx, visited + {mid}, now) && Counts(res, was, now, visited + {mid})
  {
    var promises;
    promises, idx, res := BreakMessage(prIn, mid, idxIn, resIn, now);
    BrokenSame(prIn, was, mid, now);
    CountsNext(resIn, res, was, now, visited, mid);
    HalfPromisedNext(prIn, was, visited, mid, promises, now);
    if promises == map[] {
      pr := prIn - {mid};
    } else {
      pr := prIn[mid := promises];
    }
  }

  lemma HalfwayDone(pr: Promised, was: Promised, idx: ByPeer, wasIdx: ByPeer, visited: set<MsgId>, now: Time)
    requires Halfway(pr, was, idx, wasIdx, visited, now) && Consistent(was, wasIdx) && was.Keys <= visited
    ensures Consistent(pr, idx)
    ensures forall m, p :: Live(pr, m, p) <==> Live(was, m, p) && !Broken(was, m, p, now)
    ensures forall m, p :: Live(pr, m, p) ==> pr[m][p] == was[m][p]
  {
    forall m, p
      ensures Live(pr, m, p) <==> Listed(idx, p, m)
    {
      assert Live(was, m, p) <==> Listed(wasIdx, p, m);
    }
  }

  lemma BrokenSame(pr: Promised, was: Promised, mid: MsgId, now: Time)
    requires mid in pr && mid in was && pr[mid] == was[mid]
    ensures forall p :: Broken(pr, mid, p, now) <==> Broken(was, mid, p, now)
  {
  }

  // ------------------------------------------------------------ fulfilled and voided promises

  /** The loop of fulfillPromise over the peers that promised the message. */
  method ForgetMessage(was: ByPeer, mid: MsgId, peers: set<Peer>) returns (idx: ByPeer)
    requires NoEmptySets(was)
    ensures NoEmptySets(idx)
    ensures forall q, m :: Listed(idx, q, m) <==> Listed(was, q, m) && !(m == mid && q in peers)
  {
    idx := was;
    var rest := peers;
    while rest != {}
      invariant rest <= peers && NoEmptySets(idx)
      invariant forall q, m :: Listed(idx, q, m) <==> Listed(was, q, m) && !(m == mid && q in peers && q !in rest)
      decreases rest
    {
      var p :| p in rest;
      rest := rest - {p};
      idx := ForgetFor(idx, p, mid);
    }
  }

  method Release(was: Promised, p: Peer, mid: MsgId) returns (pr: Promised)
    requires NoEmptyMaps(was)
    ensures NoEmptyMaps(pr)
    ensures forall m, q :: Live(pr, m, q) <==> Live(was, m, q) && !(q == p && m == mid)
    ensures forall m, q :: Live(pr, m, q) ==> Live(was, m, q) && pr[m][q] == was[m][q]
  {
    pr := was;
    if mid in pr {
      var promises := pr[mid] - {p};
      if |promises| == 0 {
        forall q
          ensures Live(was, mid, q) ==> q == p
        {
          assert q !in promises;
        }
        pr := pr - {mid};
      } else {
        pr := pr[mid := promises];
      }
    }
  }

  /** The loop of ThrottlePeer over the messages that the peer promised. */
  method ForgetPeer(was: Promised, p: Peer, mids: set<MsgId>) returns (pr: Promised)
    requires NoEmptyMaps(was)
    ensures NoEmptyMaps(pr) && SameTimes(was, pr)
    ensures forall m, q :: Live(pr, m, q) <==> Live(was, m, q) && !(q == p && m in mids)
  {
    pr := was;
    var rest := mids;
    while rest != {}
      invariant rest <= mids && NoEmptyMaps(pr) && SameTimes(was, pr)
      invariant forall m, q :: Live(pr, m, q) <==> Live(was, m, q) && !(q == p && m in mids && m !in rest)
      decreases rest
    {
      var mid :| mid in rest;
      rest := rest - {mid};
      pr := Release(pr, p, mid);
    }
  }

  /** Both maps without the promises about one message. */
  method Arrived(was: Promised, wasIdx: ByPeer, mid: MsgId) returns (pr: Promised, idx: ByPeer)
    requires Consistent(was, wasIdx)
    ensures Consistent(pr, idx) && SameTimes(was, pr) && pr == was - {mid}
    ensures forall m, q :: Live(pr, m, q) <==> Live(was, m, q) && m != mid
  {
    pr, idx := was, wasIdx;
    if mid in was {
      idx := ForgetMessage(wasIdx, mid, was[mid].Keys);
      pr := was - {mid};
      forall m, q
        ensures Live(pr, m, q) <==> Listed(idx, q, m)
      {
        assert Live(was, m, q) <==> Listed(wasIdx, q, m);
      }
    }
  }

  /** Both maps without the promises of one peer. */
  method Void(was: Promised, wasIdx: ByPeer, p: Peer) returns (pr: Promised, idx: ByPeer)
    requires Consistent(was, wasIdx)
    ensures Consistent(pr, idx) && SameTimes(was, pr)
    ensures forall m, q :: Live(pr, m, q) <==> Live(was, m, q) && q != p
  {
    pr, idx := was, wasIdx;
    if p in wasIdx {
      pr := ForgetPeer(was, p, wasIdx[p]);
      idx := wasIdx - {p};
    }
    forall m, q
      ensures Live(pr, m, q) <==> Live(was, m, q) && q != p
      ensures Live(pr, m, q) <==> Listed(idx, q, m)
    {
      assert Live(was, m, q) <==> Listed(wasIdx, q, m);
    }
  }

  /** The two insertions of AddPromise. */
  method Insert(was: Promised, wasIdx: ByPeer, mid: MsgId, p: Peer, expire: Time) returns (pr: Promised, idx: ByPeer)
    requires Consistent(was, wasIdx) && !Live(was, mid, p)
    ensures Consistent(pr, idx) && Live(pr, mid, p) && pr[mid][p] == expire && SameTimes(was, pr)
    ensures forall m, q :: Live(pr, m, q) <==> Live(was, m, q) || (m == mid && q == p)
  {
    pr := was[mid := (if mid in was then was[mid] else map[])[p := expire]];
    idx := wasIdx[p := (if p in wasIdx then wasIdx[p] else {}) + {mid}];
    assert p in pr[mid];
    forall m, q
      ensures Live(pr, m, q) <==> Live(was, m, q) || (m == mid && q == p)
      ensures Listed(idx, q, m) <==> Listed(wasIdx, q, m) || (m == mid && q == p)
      ensures Live(pr, m, q) <==> Listed(idx, q, m)
    {
      assert Live(was, m, q) <==> Listed(wasIdx, q, m);
    }
  }

  // ------------------------------------------------------------ what becomes of every promise

  datatype Fate = WasBroken | WasFulfilled | WasVoided

  datatype Key = Key(mid: MsgId, peer: Peer)

  datatype Pledge = Pledge(n: nat, until: Time)

  /** Promises are numbered as they are made: `keys` tells what each was about, `live`
      holds those that are open, and `fate` what became of the others. */
  datatype Ledger = Ledger(keys: seq<Key>, live: map<Key, Pledge>, fate: map<nat, Fate>)

  datatype Call = Add(mid: MsgId, p: Peer, now: Time) | Break(now: Time) | Fulfill(mid: MsgId) | Throttle(p: Peer)

  /** The call settles an open promise about k that runs until then. */
  predicate Ends(c: Call, k: Key, until: Time) {
    match c
    case Add(_, _, _) => false
    case Break(now) => until < now
    case Fulfill(mid) => k.mid == mid
    case Throttle(p) => k.peer == p
  }

  function FateBy(c: Call): Fate { if c.Fulfill? then WasFulfilled else if c.Throttle? then WasVoided else WasBroken }

  predicate Settles(l: Ledger, c: Call, k: Key) { k in l.live && Ends(c, k, l.live[k].until) }

  /** The promise of that number is open. */
  predicate Open(l: Ledger, n: nat) { n < |l.keys| && l.keys[n] in l.live && l.live[l.keys[n]].n == n }

  /** Each promise that the call ends gets its fate; the others stay as they are. */
  function Settled(l: Ledger, c: Call): Ledger {
    Ledger(l.keys,
           map k | k in l.live && !Settles(l, c, k) :: l.live[k],
           l.fate + map n | 0 <= n < |l.keys| && Open(l, n) && Settles(l, c, l.keys[n]) :: FateBy(c))
  }

  predicate Makes(l: Ledger, c: Call) { c.Add? && Key(c.mid, c.p) !in l.live }

  function Called(l: Ledger, c: Call, followUp: Duration): Ledger {
    if Makes(l, c) then
      var k := Key(c.mid, c.p);
      Ledger(l.keys + [k], l.live[k := Pledge(|l.keys|, c.now + followUp)], l.fate)
    else Settled(l, c)
  }

  function Calls(cs: seq<Call>, followUp: Duration): Ledger {
    if cs == [] then Ledger([], map[], map[]) else Called(Calls(cs[..|cs| - 1], followUp), cs[|cs| - 1], followUp)
  }

  /** Each number belongs to one open promise or has one fate. */
  ghost predicate Accounted(l: Ledger) {
    && (forall k :: k in l.live ==> l.live[k].n < |l.keys| && l.keys[l.live[k].n] == k)
    && (forall n :: n in l.fate ==> n < |l.keys|)
    && (forall n: nat :: n < |l.keys| ==> (n in l.fate <==> !Open(l, n)))
  }

  lemma SettledAccounts(l: Ledger, c: Call)
    requires Accounted(l)
    ensures var l' := Settled(l, c);
            && Accounted(l')
            && (forall n :: n in l.fate ==> n in l'.fate && l'.fate[n] == l.fate[n])
            && (forall k :: Settles(l, c, k) ==> l.live[k].n in l'.fate && l'.fate[l.live[k].n] == FateBy(c))
            && (forall k :: k in l.live && !Settles(l, c, k) ==> k in l'.live && l'.live[k] == l.live[k])
  {
    var l' := Settled(l, c);
    forall n: nat | n < |l.keys|
      ensures n in l'.fate <==> !Open(l', n)
    {
      assert n in l.fate <==> !Open(l, n);
    }
    forall k | Settles(l, c, k)
      ensures l.live[k].n in l'.fate && l'.fate[l.live[k].n] == FateBy(c)
    {
      assert Open(l, l.live[k].n);
    }
  }

  lemma CalledAccounts(l: Ledger, c: Call, followUp: Duration)
    requires Accounted(l)
    ensures Accounted(Called(l, c, followUp))
  {
    if Makes(l, c) {
      var l' := Called(l, c, followUp);
      forall n: nat | n < |l'.keys|
        ensures n in l'.fate <==> !Open(l', n)
      {
        if n < |l.keys| {
          assert n in l.fate <==> !Open(l, n);
          assert Open(l', n) <==> Open(l, n);
        }
      }
    } else {
      SettledAccounts(l, c);
    }
  }

  /** In every run, each promise so far is open or has one fate. */
  lemma {:induction false} RunAccounts(cs: seq<Call>, followUp: Duration)
    ensures Accounted(Calls(cs, followUp))
  {
    if cs != [] {
      RunAccounts(cs[..|cs| - 1], followUp);
      CalledAccounts(Calls(cs[..|cs| - 1], followUp), cs[|cs| - 1], followUp);
    }
  }

  /** None of the calls from a to b ends the promise. */
  predicate Quiet(cs: seq<Call>, a: nat, b: nat, k: Key, until: Time)
    requires b <= |cs|
  {
    forall m :: a <= m < b ==> !Ends(cs[m], k, until)
  }

  /** One more call in the life of the n-th promise. */
  lemma LifeStep(l: Ledger, c: Call, followUp: Duration, k: Key, n: nat, until: Time)
    requires Accounted(l) && n < |l.keys| && l.keys[n] == k
    ensures var l' := Called(l, c, followUp);
            && n < |l'.keys| && l'.keys[n] == k
            && (k in l.live && l.live[k] == Pledge(n, until) && !Ends(c, k, until) ==>
                  k in l'.live && l'.live[k] == Pledge(n, until))
            && (k in l.live && l.live[k] == Pledge(n, until) && Ends(c, k, until) ==>
                  n in l'.fate && l'.fate[n] == FateBy(c))
            && (n in l.fate ==> n in l'.fate && l'.fate[n] == l.fate[n])
  {
    if !Makes(l, c) {
      SettledAccounts(l, c);
    }
  }

  /** The promise that call i makes is open until the first later call that ends it,
      with the time it was given, and has the fate of that call ever after. */
  lemma {:induction false} PromiseLife(cs: seq<Call>, followUp: Duration, i: nat, j: nat)
    requires i < j <= |cs| && Makes(Calls(cs[..i], followUp), cs[i])
    ensures var n, k, until := |Calls(cs[..i], followUp).keys|, Key(cs[i].mid, cs[i].p), cs[i].now + followUp;
            var l := Calls(cs[..j], followUp);
            && n < |l.keys| && l.keys[n] == k
            && (n in l.fate <==> !Quiet(cs, i + 1, j, k, until))
            && (n !in l.fate ==> k in l.live && l.live[k] == Pledge(n, until))
            && forall m :: i < m < j && Ends(cs[m], k, until) && Quiet(cs, i + 1, m, k, until) ==>
                             n in l.fate && l.fate[n] == FateBy(cs[m])
    decreases j
  {
    hide Called, Ends, FateBy;
    var n, k, until := |Calls(cs[..i], followUp).keys|, Key(cs[i].mid, cs[i].p), cs[i].now + followUp;
    assert cs[..j][..j - 1] == cs[..j - 1];
    var l, l' := Calls(cs[..j - 1], followUp), Calls(cs[..j], followUp);
    RunAccounts(cs[..j - 1], followUp);
    RunAccounts(cs[..j], followUp);
    if j == i + 1 {
      NewPledge(l, cs[i], followUp);
    } else {
      PromiseLife(cs, followUp, i, j - 1);
      LifeStep(l, cs[j - 1], followUp, k, n, until);
      QuietNext(cs, i + 1, j - 1, k, until);
    }
  }

  /** The call is about the promise: its message arrived, its peer was throttled, or it
      was looked for after its time. */
  predicate Concerns(c: Call, mid: MsgId, p: Peer, until: Time) {
    c == Fulfill(mid) || c == Throttle(p) || (c.Break? && c.now > until)
  }

  /** What becomes of the promise that call i makes: nothing until the first later call
      that concerns it, and then for ever what that call says. */
  lemma PromiseFate(cs: seq<Call>, followUp: Duration, i: nat, j: nat, m: nat)
    requires i < j <= |cs| && Makes(Calls(cs[..i], followUp), cs[i])
    ensures var n, until := |Calls(cs[..i], followUp).keys|, cs[i].now + followUp;
            var mid, p, l := cs[i].mid, cs[i].p, Calls(cs[..j], followUp);
            && n < |l.keys| && l.keys[n] == Key(mid, p)
            && ((forall k :: i < k < j ==> !Concerns(cs[k], mid, p, until)) ==> Open(l, n) && n !in l.fate)
            && (i < m < j && Concerns(cs[m], mid, p, until)
                && (forall k :: i < k < m ==> !Concerns(cs[k], mid, p, until)) ==>
                  && n in l.fate && !Open(l, n)
                  && l.fate[n] == (if cs[m].Fulfill? then WasFulfilled else if cs[m].Throttle? then WasVoided
                                   else WasBroken))
  {
    hide Called;
    var n, k, until := |Calls(cs[..i], followUp).keys|, Key(cs[i].mid, cs[i].p), cs[i].now + followUp;
    forall c: Call
      ensures Ends(c, k, until) <==> Concerns(c, cs[i].mid, cs[i].p, until)
    {
    }
    PromiseLife(cs, followUp, i, j);
    RunAccounts(cs[..j], followUp);
  }

  lemma NewPledge(l: Ledger, c: Call, followUp: Duration)
    requires Makes(l, c) && Accounted(l)
    ensures var l', k := Called(l, c, followUp), Key(c.mid, c.p);
            && |l'.keys| == |l.keys| + 1 && l'.keys[|l.keys|] == k
            && k in l'.live && l'.live[k] == Pledge(|l.keys|, c.now + followUp) && |l.keys| !in l'.fate
  {
  }

  lemma QuietNext(cs: seq<Call>, a: nat, b: nat, k: Key, until: Time)
    requires a <= b < |cs|
    ensures Quiet(cs, a, b + 1, k, until) <==> Quiet(cs, a, b, k, until) && !Ends(cs[b], k, until)
  {
  }

  /** Every number is that of a promise that some call made. */
  lemma {:induction false} MadeBy(cs: seq<Call>, followUp: Duration, n: nat) returns (i: nat)
    requires n < |Calls(cs, followUp).keys|
    ensures i < |cs| && Makes(Calls(cs[..i], followUp), cs[i]) && |Calls(cs[..i], followUp).keys| == n
  {
    var init := cs[..|cs| - 1];
    if n < |Calls(init, followUp).keys| {
      i := MadeBy(init, followUp, n);
      assert init[..i] == cs[..i];
    } else {
      i := |init|;
    }
  }

  // ------------------------------------------------------------ what a peer is blamed for

  /** The promises of the peer that a check at that time finds broken. */
  function BrokenNow(l: Ledger, p: Peer, now: Time): set<MsgId> {
    set k | k in l.live && k.peer == p && l.live[k].until < now :: k.mid
  }

  function BrokenOf(l: Ledger, p: Peer): set<nat> {
    set n | n in l.fate && l.fate[n] == WasBroken && n < |l.keys| && l.keys[n].peer == p
  }

  /** What all checks of a run together count for the peer. */
  function Blame(cs: seq<Call>, followUp: Duration, p: Peer): nat {
    if cs == [] then 0
    else
      var init, c := cs[..|cs| - 1], cs[|cs| - 1];
      Blame(init, followUp, p) + if c.Break? then |BrokenNow(Calls(init, followUp), p, c.now)| else 0
  }

  lemma {:induction false} SameSize(keys: seq<Key>, ns: set<nat>, mids: set<MsgId>, p: Peer)
    requires forall n :: n in ns ==> n < |keys| && keys[n].peer == p && keys[n].mid in mids
    requires forall n, m :: n in ns && m in ns && keys[n] == keys[m] ==> n == m
    requires forall mid :: mid in mids ==> exists n :: n in ns && keys[n] == Key(mid, p)
    ensures |ns| == |mids|
    decreases |ns|
  {
    if ns == {} {
      assert mids == {};
    } else {
      var n :| n in ns;
      SameSize(keys, ns - {n}, mids - {keys[n].mid}, p);
    }
  }

  /** Their numbers. */
  function BreakingNow(l: Ledger, p: Peer, now: Time): set<nat> {
    set n | 0 <= n < |l.keys| && Open(l, n) && l.keys[n].peer == p && l.live[l.keys[n]].until < now
  }

  lemma BreakingSize(l: Ledger, p: Peer, now: Time)
    requires Accounted(l)
    ensures |BreakingNow(l, p, now)| == |BrokenNow(l, p, now)|
  {
    var ns, mids := BreakingNow(l, p, now), BrokenNow(l, p, now);
    forall mid | mid in mids
      ensures exists n :: n in ns && l.keys[n] == Key(mid, p)
    {
      var k :| k in l.live && k.peer == p && l.live[k].until < now && k.mid == mid;
      assert k == Key(mid, p) && l.live[k].n in ns;
    }
    SameSize(l.keys, ns, mids, p);
  }

  lemma BrokenMore(l: Ledger, now: Time, p: Peer)
    requires Accounted(l)
    ensures BrokenOf(Settled(l, Break(now)), p) == BrokenOf(l, p) + BreakingNow(l, p, now)
    ensures BrokenOf(l, p) !! BreakingNow(l, p, now)
  {
    var l' := Settled(l, Break(now));
    forall n: nat
      ensures n in BrokenOf(l', p) <==> n in BrokenOf(l, p) || n in BreakingNow(l, p, now)
      ensures !(n in BrokenOf(l, p) && n in BreakingNow(l, p, now))
    {
      if n < |l.keys| {
        assert n in l.fate <==> !Open(l, n);
      }
    }
  }

  lemma BrokenNext(l: Ledger, now: Time, p: Peer)
    requires Accounted(l)
    ensures |BrokenOf(Settled(l, Break(now)), p)| == |BrokenOf(l, p)| + |BrokenNow(l, p, now)|
  {
    hide Settled, BrokenOf, BrokenNow, BreakingNow, Accounted;
    BreakingSize(l, p, now);
    BrokenMore(l, now, p);
  }

  lemma OtherNext(l: Ledger, c: Call, followUp: Duration, p: Peer)
    requires Accounted(l) && !c.Break?
    ensures BrokenOf(Called(l, c, followUp), p) == BrokenOf(l, p)
  {
  }

  /** In every run a peer is blamed exactly once for each of its promises that was
      broken, and for nothing else. */
  lemma {:induction false} BlamedOnce(cs: seq<Call>, followUp: Duration, p: Peer)
    ensures Blame(cs, followUp, p) == |BrokenOf(Calls(cs, followUp), p)|
  {
    hide Settled, BrokenOf, BrokenNow;
    if cs == [] {
      NobodyBroke(p);
    } else {
      var init, c := cs[..|cs| - 1], cs[|cs| - 1];
      var l := Calls(init, followUp);
      BlamedOnce(init, followUp, p);
      RunAccounts(init, followUp);
      if c.Break? {
        BrokenNext(l, c.now, p);
      } else {
        OtherNext(l, c, followUp, p);
      }
    }
  }

  lemma NobodyBroke(p: Peer)
    ensures BrokenOf(Ledger([], map[], map[]), p) == {}
  {
  }

  // ------------------------------------------------------------ the tracer

  /** The open promises of the ledger are those of the map. */
  ghost predicate Tracks(l: Ledger, pr: Promised) {
    forall mid, p :: && (Key(mid, p) in l.live <==> Live(pr, mid, p))
                     && (Live(pr, mid, p) ==> l.live[Key(mid, p)].until == pr[mid][p])
  }

  /** The map without the promises that the call ends. */
  ghost predicate Without(pr: Promised, was: Promised, c: Call) {
    && SameTimes(was, pr)
    && forall m, p :: Live(pr, m, p) <==> Live(was, m, p) && !Ends(c, Key(m, p), was[m][p])
  }

  lemma TracksSettled(l: Ledger, was: Promised, pr: Promised, c: Call)
    requires Tracks(l, was) && Without(pr, was, c)
    ensures Tracks(Settled(l, c), pr)
  {
    var l' := Settled(l, c);
    forall m, p
      ensures Key(m, p) in l'.live <==> Live(pr, m, p)
      ensures Live(pr, m, p) ==> l'.live[Key(m, p)].until == pr[m][p]
    {
      assert Live(was, m, p) <==> Key(m, p) in l.live;
      assert Live(was, m, p) && Live(pr, m, p) ==> pr[m][p] == was[m][p];
    }
  }

  /** The counts of a check, as the ledger has them. */
  lemma CountsAreBroken(l: Ledger, pr: Promised, now: Time, p: Peer)
    requires Tracks(l, pr)
    ensures BrokenBy(pr, p, now, pr.Keys) == BrokenNow(l, p, now)
  {
    forall mid
      ensures mid in BrokenBy(pr, p, now, pr.Keys) <==> mid in BrokenNow(l, p, now)
    {
      assert Live(pr, mid, p) <==> Key(mid, p) in l.live;
      if mid in BrokenNow(l, p, now) {
        var k :| k in l.live && k.peer == p && l.live[k].until < now && k.mid == mid;
        assert k == Key(mid, p);
      }
      if Broken(pr, mid, p, now) {
        assert Key(mid, p) in l.live && Key(mid, p).mid == mid;
      }
    }
  }

  class GossipTracer {
    const followUpTime: Duration
    var promises: Promised
    var peerPromises: ByPeer
    ghost var ledger: Ledger

    constructor (followUpTime: Duration)
      ensures Valid() && this.followUpTime == followUpTime && promises == map[] && ledger == Calls([], followUpTime)
    {
      this.followUpTime := followUpTime;
      promises, peerPromises, ledger := map[], map[], Ledger([], map[], map[]);
    }

    ghost predicate Valid()
      reads this
    {
      Consistent(promises, peerPromises) && Tracks(ledger, promises) && Accounted(ledger)
    }

    /** A promise for one of the requested ids, picked at random. */
    method AddPromise(p: Peer, mids: seq<MsgId>, idx: nat, now: Time)
      requires Valid() && idx < |mids|
      modifies this
      ensures Valid() && ledger == Called(old(ledger), Add(mids[idx], p, now), followUpTime)
      ensures SameTimes(old(promises), promises)
      ensures if Live(old(promises), mids[idx], p) then promises == old(promises) && ledger == old(ledger)
              else Live(promises, mids[idx], p) && promises[mids[idx]][p] == now + followUpTime
                   && forall m, q :: Live(promises, m, q) <==> Live(old(promises), m, q) || (m == mids[idx] && q == p)
    {
      hide Accounted, Consistent, Called;
      var mid := mids[idx];
      ghost var c := Add(mid, p, now);
      CalledAccounts(ledger, c, followUpTime);
      TracksAdded(ledger, promises, c, followUpTime);
      if mid in promises && p in promises[mid] {
        return;
      }
      var pr, byPeer := Insert(promises, peerPromises, mid, p, now + followUpTime);
      TracksMade(ledger, promises, pr, c, followUpTime);
      promises, peerPromises, ledger := pr, byPeer, Called(ledger, c, followUpTime);
    }

    /** Every promise whose time is over is broken, and counted once. */
    method GetBrokenPromises(now: Time) returns (res: map<Peer, nat>)
      requires Valid()
      modifies this
      ensures Valid() && ledger == Called(old(ledger), Break(now), followUpTime)
      ensures Without(promises, old(promises), Break(now)) && Counts(res, old(promises), now, old(promises).Keys)
      ensures forall p :: |BrokenNow(old(ledger), p, now)| == if p in res then res[p] else 0
    {
      var pr, idx;
      pr, idx, res := BreakPromises(promises, peerPromises, now);
      forall p
        ensures BrokenBy(promises, p, now, promises.Keys) == BrokenNow(ledger, p, now)
      {
        CountsAreBroken(ledger, promises, now, p);
      }
      Settle(pr, idx, Break(now));
    }

    /** A message that arrived fulfils what anybody promised about it. */
    method FulfillPromise(mid: MsgId)
      requires Valid()
      modifies this
      ensures Valid() && ledger == Called(old(ledger), Fulfill(mid), followUpTime)
      ensures promises == old(promises) - {mid} && Without(promises, old(promises), Fulfill(mid))
    {
      var pr, idx := Arrived(promises, peerPromises, mid);
      Settle(pr, idx, Fulfill(mid));
    }

    /** A throttled peer is released from all its promises. */
    method ThrottlePeer(p: Peer)
      requires Valid()
      modifies this
      ensures Valid() && ledger == Called(old(ledger), Throttle(p), followUpTime)
      ensures Without(promises, old(promises), Throttle(p))
    {
      var pr, idx := Void(promises, peerPromises, p);
      Settle(pr, idx, Throttle(p));
    }

    method Settle(pr: Promised, idx: ByPeer, ghost c: Call)
      requires Valid() && Consistent(pr, idx) && Without(pr, promises, c) && !c.Add?
      modifies this
      ensures Valid() && promises == pr && ledger == Called(old(ledger), c, followUpTime)
    {
      SettledAccounts(ledger, c);
      TracksSettled(ledger, promises, pr, c);
      promises, peerPromises, ledger := pr, idx, Settled(ledger, c);
    }

    method Handle(c: Call)
      requires Valid()
      modifies this
      ensures Valid() && ledger == Called(old(ledger), c, followUpTime)
    {
      match c
      case Add(mid, p, now) => AddPromise(p, [mid], 0, now);
      case Break(now) => var _ := GetBrokenPromises(now);
      case Fulfill(mid) => FulfillPromise(mid);
      case Throttle(p) => ThrottlePeer(p);
    }

    /** Any sequence of calls on a new tracer. */
    static method Replay(cs: seq<Call>, followUpTime: Duration) returns (t: GossipTracer)
      ensures fresh(t) && t.Valid() && t.followUpTime == followUpTime && t.ledger == Calls(cs, followUpTime)
    {
      hide Called;
      t := new GossipTracer(followUpTime);
      for i := 0 to |cs|
        invariant fresh(t) && t.Valid() && t.followUpTime == followUpTime && t.ledger == Calls(cs[..i], followUpTime)
      {
        assert cs[..i + 1][..i] == cs[..i];
        t.Handle(cs[i]);
      }
      assert cs[..|cs|] == cs;
    }
  }

  /** A promise that exists stays as it is. */
  lemma TracksAdded(l: Ledger, pr: Promised, c: Call, followUp: Duration)
    requires Tracks(l, pr) && c.Add?
    ensures Live(pr, c.mid, c.p) ==> Called(l, c, followUp) == l
  {
    assert Settled(l, c) == l;
  }

  lemma TracksMade(l: Ledger, was: Promised, pr: Promised, c: Call, followUp: Duration)
    requires Tracks(l, was) && SameTimes(was, pr) && c.Add? && !Live(was, c.mid, c.p)
    requires Live(pr, c.mid, c.p) && pr[c.mid][c.p] == c.now + followUp
    requires forall m, q :: Live(pr, m, q) <==> Live(was, m, q) || (m == c.mid && q == c.p)
    ensures Tracks(Called(l, c, followUp), pr)
  {
    var l' := Called(l, c, followUp);
    forall m, q
      ensures Key(m, q) in l'.live <==> Live(pr, m, q)
      ensures Live(pr, m, q) ==> l'.live[Key(m, q)].until == pr[m][q]
    {
      assert Live(was, m, q) <==> Key(m, q) in l.live;
      assert Live(was, m, q) && Live(pr, m, q) ==> pr[m][q] == was[m][q];
    }
  }
}
