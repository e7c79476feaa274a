/** IDONTWANT: what each peer asked us not to send it, for a few heartbeats. */
module IDontWant {
  import opened Basics
  import opened Ids
  import opened Wire

  // ------------------------------------------------------------ checksums

  /** 32 bytes and the length of the id, or zero for a hash. */
  datatype Checksum = Checksum(payload: Bytes, length: nat)

  const SIZE := 32

  function Zeros(n: nat): Bytes { seq(n, i => 0 as byte) }

  function ComputeChecksum(mid: Bytes, sha256: Bytes -> Bytes): Checksum {
    if |mid| > SIZE || |mid| == 0 then Checksum(sha256(mid), 0)
    else Checksum(mid + Zeros(SIZE - |mid|), |mid|)
  }

  ghost predicate Injective(sha256: Bytes -> Bytes) { forall a, b :: sha256(a) == sha256(b) ==> a == b }

  /** Distinct ids never share a checksum, if the hash is injective. */
  lemma ChecksumsDiffer(a: Bytes, b: Bytes, sha256: Bytes -> Bytes)
    requires Injective(sha256) && ComputeChecksum(a, sha256) == ComputeChecksum(b, sha256)
    ensures a == b
  {
    var ca, cb := ComputeChecksum(a, sha256), ComputeChecksum(b, sha256);
    if ca.length > 0 {
      assert a == ca.payload[..ca.length];
      assert b == cb.payload[..cb.length];
    }
  }

  // ------------------------------------------------------------ one peer's entries

  type Entries = map<Checksum, int>

  function AddAll(m: Entries, cs: seq<Checksum>, ttl: int): Entries {
    if cs == [] then m else AddAll(m, cs[..|cs| - 1], ttl)[cs[|cs| - 1] := ttl]
  }

  /** A heartbeat decrements, and drops what has reached zero. */
  function Beat(m: Entries): Entries { map c | c in m && m[c] - 1 > 0 :: m[c] - 1 }

  function Class(m: Entries, v: int): set<Checksum> { set c | c in m && m[c] == v }

  lemma {:induction false} AddAllAt(m: Entries, cs: seq<Checksum>, ttl: int, c: Checksum)
    ensures c in AddAll(m, cs, ttl) <==> c in m || c in cs
    ensures c in AddAll(m, cs, ttl) ==> AddAll(m, cs, ttl)[c] == if c in cs then ttl else m[c]
  {
    if cs != [] {
      AddAllAt(m, cs[..|cs| - 1], ttl, c);
      assert cs == cs[..|cs| - 1] + [cs[|cs| - 1]];
    }
  }

  function Elements(cs: seq<Checksum>): set<Checksum> { set c | c in cs }

  lemma {:induction false} ElementsSize(cs: seq<Checksum>)
    ensures |Elements(cs)| <= |cs|
  {
    if cs != [] {
      ElementsSize(cs[..|cs| - 1]);
      assert Elements(cs) == Elements(cs[..|cs| - 1]) + {cs[|cs| - 1]};
    }
  }

  lemma SubsetSize(a: set<Checksum>, b: set<Checksum>)
    requires a <= b
    ensures |a| <= |b|
  {
    assert b == a + (b - a);
  }

  /** Adding ids makes at most so many entries young, and no more of any other age. */
  lemma AddAllClasses(m: Entries, cs: seq<Checksum>, ttl: int, v: int)
    ensures |Class(AddAll(m, cs, ttl), v)| <= |Class(m, v)| + if v == ttl then |cs| else 0
  {
    var m' := AddAll(m, cs, ttl);
    forall c
      ensures c in Class(m', v) ==> c in Class(m, v) || (v == ttl && c in cs)
    {
      AddAllAt(m, cs, ttl, c);
    }
    if v == ttl {
      ElementsSize(cs);
      SubsetSize(Class(m', v), Class(m, v) + Elements(cs));
    } else {
      SubsetSize(Class(m', v), Class(m, v));
    }
  }

  /** A heartbeat makes every entry one older. */
  lemma BeatClasses(m: Entries, v: int)
    ensures |Class(Beat(m), v)| <= if v > 0 then |Class(m, v + 1)| else 0
  {
    if v > 0 {
      SubsetSize(Class(Beat(m), v), Class(m, v + 1));
    } else {
      assert Class(Beat(m), v) == {};
    }
  }

  function Repeated(times: nat, n: nat): nat { if times == 0 then 0 else Repeated(times - 1, n) + n }

  lemma {:induction false} RepeatedIsProduct(times: nat, n: nat)
    ensures Repeated(times, n) == times * n
  {
    if times > 0 {
      RepeatedIsProduct(times - 1, n);
      assert times * n == (times - 1) * n + n;
    }
  }

  /** So many entries of every age up to `ages`, and none older. */
  lemma {:induction false} SizeFromClasses(m: Entries, ages: nat, n: nat)
    requires forall c :: c in m ==> 1 <= m[c] <= ages
    requires forall v :: 1 <= v <= ages ==> |Class(m, v)| <= n
    ensures |m| <= Repeated(ages, n)
  {
    if ages == 0 {
      assert m.Keys == {};
    } else {
      var young := Class(m, ages);
      var rest := map c | c in m && m[c] != ages :: m[c];
      forall v | 1 <= v <= ages - 1
        ensures |Class(rest, v)| <= n
      {
        assert Class(rest, v) == Class(m, v);
      }
      SizeFromClasses(rest, ages - 1, n);
      assert m.Keys == rest.Keys + young;
      assert |m| == |m.Keys| && |rest| == |rest.Keys|;
    }
  }

  // ------------------------------------------------------------ all peers

  datatype Params = Params(ttl: int, maxMessages: int, maxLength: int)

  datatype State = State(unwanted: map<Peer, Entries>, counts: map<Peer, nat>)

  function EntriesOf(s: State, p: Peer): Entries { if p in s.unwanted then s.unwanted[p] else map[] }

  function CountOf(s: State, p: Peer): nat { if p in s.counts then s.counts[p] else 0 }

  /** All ids of a control message, in order. */
  function Flat(lists: seq<seq<Bytes>>): seq<Bytes> {
    if lists == [] then [] else Flat(lists[..|lists| - 1]) + lists[|lists| - 1]
  }

  function Taken(lists: seq<seq<Bytes>>, params: Params): seq<Bytes> {
    Flat(lists)[..Min(|Flat(lists)|, Max(params.maxLength, 0))]
  }

  function Checksums(mids: seq<Bytes>, sha256: Bytes -> Bytes): (r: seq<Checksum>)
    ensures |r| == |mids|
  {
    seq(|mids|, i requires 0 <= i < |mids| => ComputeChecksum(mids[i], sha256))
  }

  function Received(s: State, p: Peer, lists: seq<seq<Bytes>>, params: Params, sha256: Bytes -> Bytes): State {
    if lists == [] || CountOf(s, p) >= params.maxMessages then s
    else
      var s1 := s.(counts := s.counts[p := CountOf(s, p) + 1]);
      if Taken(lists, params) == [] then s1
      else
        var taken := Checksums(Taken(lists, params), sha256);
        s1.(unwanted := s.unwanted[p := AddAll(EntriesOf(s, p), taken, params.ttl)])
  }

  function Beaten(s: State): State {
    State(map p | p in s.unwanted && Beat(s.unwanted[p]) != map[] :: Beat(s.unwanted[p]), map[])
  }

  function Closed(s: State, p: Peer): State { s.(unwanted := s.unwanted - {p}) }

  datatype Step = Recv(p: Peer, lists: seq<seq<Bytes>>) | Heartbeat | Close(p: Peer)

  function Apply(s: State, step: Step, params: Params, sha256: Bytes -> Bytes): State {
    match step
    case Recv(p, lists) => Received(s, p, lists, params, sha256)
    case Heartbeat => Beaten(s)
    case Close(p) => Closed(s, p)
  }

  // ------------------------------------------------------------ the memory bound

  /** Entries added per heartbeat interval. */
  function Quota(params: Params): nat { Times(Max(params.maxMessages, 0), Max(params.maxLength, 0)) }

  function Times(a: nat, b: nat): (r: nat) { Product(a, b); a * b }

  lemma Product(a: nat, b: nat)
    ensures a * b >= 0
  {
  }

  predicate Aged(m: Entries, ttl: int, c: Checksum) { c in m ==> m[c] == ttl || 1 <= m[c] <= ttl }

  predicate ClassOk(m: Entries, count: nat, params: Params, v: int) {
    |Class(m, v)| <= if v == params.ttl then Times(count, Max(params.maxLength, 0)) else Quota(params)
  }

  ghost predicate PeerInv(m: Entries, count: nat, params: Params) {
    && count <= Max(params.maxMessages, 0)
    && (forall c :: Aged(m, params.ttl, c))
    && (forall v :: ClassOk(m, count, params, v))
  }

  ghost predicate Inv(s: State, params: Params) {
    && (forall p :: PeerInv(EntriesOf(s, p), CountOf(s, p), params))
    && (forall p :: p in s.unwanted ==> s.unwanted[p] != map[])
  }

  lemma TimesMonotone(a: nat, b: nat, n: nat)
    requires a <= b
    ensures Times(a, n) <= Times(b, n) && Times(a + 1, n) == Times(a, n) + n
  {
    assert (b - a) * n >= 0;
  }

  lemma ReceivedKeeps(m: Entries, count: nat, cs: seq<Checksum>, params: Params)
    requires PeerInv(m, count, params) && count < params.maxMessages && |cs| <= Max(params.maxLength, 0)
    ensures PeerInv(AddAll(m, cs, params.ttl), count + 1, params)
  {
    var m', next := AddAll(m, cs, params.ttl), count + 1;
    forall c
      ensures Aged(m', params.ttl, c)
    {
      assert Aged(m, params.ttl, c);
      AddAllAt(m, cs, params.ttl, c);
    }
    forall v
      ensures ClassOk(m', next, params, v)
    {
      assert ClassOk(m, count, params, v);
      AddAllClasses(m, cs, params.ttl, v);
      TimesMonotone(count, count, Max(params.maxLength, 0));
    }
  }

  lemma BeatKeeps(m: Entries, count: nat, params: Params)
    requires PeerInv(m, count, params)
    ensures PeerInv(Beat(m), 0, params)
  {
    forall c
      ensures Aged(Beat(m), params.ttl, c)
    {
      assert Aged(m, params.ttl, c);
    }
    forall v
      ensures ClassOk(Beat(m), 0, params, v)
    {
      assert ClassOk(m, count, params, v + 1);
      BeatClasses(m, v);
      TimesMonotone(count, Max(params.maxMessages, 0), Max(params.maxLength, 0));
      if v == params.ttl {
        var older := Class(m, v + 1);
        forall c
          ensures c !in older
        {
          assert Aged(m, params.ttl, c);
        }
        assert older == {};
      }
    }
  }

  lemma StepInv(s: State, step: Step, params: Params, sha256: Bytes -> Bytes)
    requires Inv(s, params)
    ensures Inv(Apply(s, step, params, sha256), params)
  {
    var s' := Apply(s, step, params, sha256);
    forall q
      ensures PeerInv(EntriesOf(s', q), CountOf(s', q), params)
    {
      assert PeerInv(EntriesOf(s, q), CountOf(s, q), params);
      match step
      case Recv(p, lists) =>
        if p == q && lists != [] && CountOf(s, p) < params.maxMessages {
          ReceivedKeeps(EntriesOf(s, p), CountOf(s, p), Checksums(Taken(lists, params), sha256), params);
          assert AddAll(EntriesOf(s, p), [], params.ttl) == EntriesOf(s, p);
        }
      case Heartbeat =>
        BeatKeeps(EntriesOf(s, q), CountOf(s, q), params);
        assert EntriesOf(s', q) == Beat(EntriesOf(s, q));
      case Close(p) =>
        NoEntries(EntriesOf(s, q), CountOf(s, q), params);
    }
    if step.Recv? && s'.unwanted != s.unwanted {
      var cs := Checksums(Taken(step.lists, params), sha256);
      AddAllAt(EntriesOf(s, step.p), cs, params.ttl, cs[0]);
      assert cs[0] in s'.unwanted[step.p];
    }
  }

  lemma NoEntries(m: Entries, count: nat, params: Params)
    requires PeerInv(m, count, params)
    ensures PeerInv(map[], count, params)
  {
    var none: Entries := map[];
    forall v
      ensures ClassOk(none, count, params, v)
    {
      assert Class(none, v) == {};
    }
  }

  ghost predicate IsRun(states: seq<State>, steps: seq<Step>, params: Params, sha256: Bytes -> Bytes) {
    && |states| == |steps| + 1 && states[0] == State(map[], map[])
    && forall i :: 0 <= i < |steps| ==> states[i + 1] == Apply(states[i], steps[i], params, sha256)
  }

  lemma StartInv(params: Params)
    ensures Inv(State(map[], map[]), params)
  {
    var none: Entries := map[];
    forall v
      ensures ClassOk(none, 0, params, v)
    {
      assert Class(none, v) == {};
    }
  }

  lemma {:induction false} RunInv(states: seq<State>, steps: seq<Step>, params: Params, sha256: Bytes -> Bytes, j: nat)
    requires IsRun(states, steps, params, sha256) && j < |states|
    ensures Inv(states[j], params)
  {
    if j == 0 {
      StartInv(params);
    } else {
      RunInv(states, steps, params, sha256, j - 1);
      StepInv(states[j - 1], steps[j - 1], params, sha256);
    }
  }

  lemma SizeOfPeer(m: Entries, count: nat, params: Params)
    requires PeerInv(m, count, params)
    ensures |m| <= Times(Max(params.ttl, 1), Quota(params))
  {
    var n := Quota(params);
    forall v
      ensures |Class(m, v)| <= n
    {
      assert ClassOk(m, count, params, v);
      TimesMonotone(count, Max(params.maxMessages, 0), Max(params.maxLength, 0));
    }
    forall c
      ensures c in m ==> m[c] == params.ttl || 1 <= m[c] <= params.ttl
    {
      assert Aged(m, params.ttl, c);
    }
    if params.ttl >= 1 {
      SizeFromClasses(m, params.ttl, n);
      RepeatedIsProduct(params.ttl, n);
    } else {
      assert Class(m, params.ttl) == m.Keys;
      assert |m| == |m.Keys|;
    }
  }

  /** In every run, a peer never has more entries than TTL times the ids it may
      send per heartbeat. */
  lemma MemoryBound(states: seq<State>, steps: seq<Step>, params: Params, sha256: Bytes -> Bytes, j: nat, p: Peer)
    requires IsRun(states, steps, params, sha256) && j < |states|
    ensures |EntriesOf(states[j], p)| <= Max(params.ttl, 1) * (Max(params.maxMessages, 0) * Max(params.maxLength, 0))
  {
    RunInv(states, steps, params, sha256, j);
    assert PeerInv(EntriesOf(states[j], p), CountOf(states[j], p), params);
    SizeOfPeer(EntriesOf(states[j], p), CountOf(states[j], p), params);
  }

  // ------------------------------------------------------------ how long an entry lasts

  /** The step leaves the entry of p for c alone, unless it is a heartbeat. */
  predicate Spares(step: Step, p: Peer, c: Checksum, params: Params, sha256: Bytes -> Bytes) {
    match step
    case Recv(q, lists) => q != p || c !in Checksums(Taken(lists, params), sha256)
    case Heartbeat => true
    case Close(q) => q != p
  }

  function Beats(steps: seq<Step>): nat {
    if steps == [] then 0 else Beats(steps[..|steps| - 1]) + if steps[|steps| - 1].Heartbeat? then 1 else 0
  }

  /** The entry of p for c has this much time left, or is gone if that is nothing. */
  predicate Left(s: State, p: Peer, c: Checksum, v: int) {
    if v > 0 then c in EntriesOf(s, p) && EntriesOf(s, p)[c] == v else c !in EntriesOf(s, p)
  }

  lemma SparedStep(s: State, step: Step, params: Params, sha256: Bytes -> Bytes, p: Peer, c: Checksum, v: int)
    requires Left(s, p, c, v) && Spares(step, p, c, params, sha256)
    ensures Left(Apply(s, step, params, sha256), p, c, if step.Heartbeat? then v - 1 else v)
  {
    match step
    case Recv(q, lists) =>
      AddAllAt(EntriesOf(s, q), Checksums(Taken(lists, params), sha256), params.ttl, c);
    case Heartbeat =>
      assert EntriesOf(Beaten(s), p) == Beat(EntriesOf(s, p));
    case Close(_) =>
  }

  /** An entry that is not refreshed lasts exactly until the TTL-th heartbeat. */
  lemma {:induction false} LastsExactly(
    states: seq<State>, steps: seq<Step>, params: Params, sha256: Bytes -> Bytes, i: nat, j: nat, p: Peer, c: Checksum)
    requires IsRun(states, steps, params, sha256) && i <= j < |states| && params.ttl >= 1
    requires c in EntriesOf(states[i], p) && EntriesOf(states[i], p)[c] == params.ttl
    requires forall k :: i <= k < j ==> Spares(steps[k], p, c, params, sha256)
    ensures Left(states[j], p, c, params.ttl - Beats(steps[i..j]))
    ensures c in EntriesOf(states[j], p) <==> Beats(steps[i..j]) < params.ttl
    decreases j
  {
    if i == j {
      assert steps[i..j] == [];
    } else {
      LastsExactly(states, steps, params, sha256, i, j - 1, p, c);
      assert steps[i..j][..j - i - 1] == steps[i..j - 1] && steps[i..j][j - i - 1] == steps[j - 1];
      SparedStep(states[j - 1], steps[j - 1], params, sha256, p, c, params.ttl - Beats(steps[i..j - 1]));
    }
  }

  // ------------------------------------------------------------ the handlers

  class Router {
    const params: Params
    var unwanted: map<Peer, Entries>
    var peerdontwant: map<Peer, nat>

    constructor (params: Params)
      ensures this.params == params && Abs() == State(map[], map[])
    {
      this.params, unwanted, peerdontwant := params, map[], map[];
    }

    ghost function Abs(): State
      reads this
    {
      State(unwanted, peerdontwant)
    }

    method HandleIDontWant(p: Peer, idontwants: seq<seq<Bytes>>, sha256: Bytes -> Bytes)
      modifies this
      ensures Abs() == Received(old(Abs()), p, idontwants, params, sha256)
    {
      if |idontwants| == 0 {
        return;
      }
      var count := if p in peerdontwant then peerdontwant[p] else 0;
      if count >= params.maxMessages {
        return;
      }
      peerdontwant := peerdontwant[p := count + 1];
      var m, any := Remember(if p in unwanted then unwanted[p] else map[], idontwants, params, sha256);
      if any {
        unwanted := unwanted[p := m];
      }
    }

    /** The two nested loops, which stop after MaxIDontWantLength ids. */
    static method Remember(m: Entries, lists: seq<seq<Bytes>>, params: Params, sha256: Bytes -> Bytes)
      returns (r: Entries, any: bool)
      ensures r == AddAll(m, Checksums(Taken(lists, params), sha256), params.ttl)
      ensures any <==> Taken(lists, params) != []
    {
      hide ComputeChecksum, Checksums, AddAll, Flat, Taken;
      Nothing(m, params, sha256);
      r := m;
      var total := 0;
      for i := 0 to |lists|
        invariant 0 <= total == |Flat(lists[..i])| <= Max(params.maxLength, 0)
        invariant r == AddAll(m, Checksums(Flat(lists[..i]), sha256), params.ttl)
      {
        ghost var before := Flat(lists[..i]);
        FlatPrefix(lists, i);
        var mids := lists[i];
        assert before + mids[..0] == before;
        for j := 0 to |mids|
          invariant total == |before| + j <= Max(params.maxLength, 0)
          invariant r == AddAll(m, Checksums(before + mids[..j], sha256), params.ttl)
        {
          assert before + mids[..j + 1] == (before + mids[..j]) + [mids[j]];
          if total >= params.maxLength {
            TakenStops(lists, i, j, params);
            return r, total > 0;
          }
          total := total + 1;
          ChecksumsAppend(before + mids[..j], mids[j], sha256);
          AddAllAppend(m, Checksums(before + mids[..j], sha256), ComputeChecksum(mids[j], sha256), params.ttl);
          r := r[ComputeChecksum(mids[j], sha256) := params.ttl];
        }
        assert mids[..|mids|] == mids;
      }
      assert lists[..|lists|] == lists;
      TakenAll(lists, params);
      return r, total > 0;
    }

    method ClearIDontWantCounters()
      modifies this
      ensures Abs() == Beaten(old(Abs()))
    {
      if |peerdontwant| > 0 {
        peerdontwant := map[];
      }
      unwanted := DecrementAll(unwanted);
    }

    method OnClosedOutboundStream(p: Peer)
      modifies this
      ensures Abs() == Closed(old(Abs()), p)
    {
      unwanted := unwanted - {p};
    }

    static method DecrementAll(m: map<Peer, Entries>) returns (r: map<Peer, Entries>)
      ensures r == map p | p in m && Beat(m[p]) != map[] :: Beat(m[p])
    {
      hide Beat;
      r := m;
      var rest := m.Keys;
      while rest != {}
        invariant rest <= m.Keys
        invariant forall p :: p in r <==> p in m && (p in rest || Beat(m[p]) != map[])
        invariant forall p :: p in r ==> r[p] == if p in rest then m[p] else Beat(m[p])
        decreases rest
      {
        var p :| p in rest;
        rest := rest - {p};
        var mids := Decrement(r[p]);
        r := r[p := mids];
        if |mids| == 0 {
          r := r - {p};
        }
      }
    }

    static method Decrement(m: Entries) returns (r: Entries)
      ensures r == Beat(m)
    {
      r := m;
      var rest := m.Keys;
      while rest != {}
        invariant rest <= m.Keys
        invariant r == map c | c in m && (c in rest || m[c] - 1 > 0) :: if c in rest then m[c] else m[c] - 1
        decreases rest
      {
        var c :| c in rest;
        rest := rest - {c};
        r := r[c := r[c] - 1];
        if r[c] <= 0 {
          r := r - {c};
        }
      }
    }
  }

  lemma AddAllAppend(m: Entries, cs: seq<Checksum>, c: Checksum, ttl: int)
    ensures AddAll(m, cs + [c], ttl) == AddAll(m, cs, ttl)[c := ttl]
  {
    assert (cs + [c])[..|cs + [c]| - 1] == cs;
  }

  lemma ChecksumsAppend(mids: seq<Bytes>, mid: Bytes, sha256: Bytes -> Bytes)
    ensures Checksums(mids + [mid], sha256) == Checksums(mids, sha256) + [ComputeChecksum(mid, sha256)]
  {
  }

  /** The ids of the first lists come first. */
  lemma {:induction false} FlatSplits(lists: seq<seq<Bytes>>, i: nat)
    requires i <= |lists|
    ensures Flat(lists) == Flat(lists[..i]) + Flat(lists[i..])
  {
    if i == |lists| {
      assert lists[..i] == lists && lists[i..] == [];
    } else {
      var init := lists[..|lists| - 1];
      FlatSplits(init, i);
      assert init[..i] == lists[..i] && init[i..] == lists[i..][..|lists[i..]| - 1];
    }
  }

  lemma FlatPrefix(lists: seq<seq<Bytes>>, i: nat)
    requires i < |lists|
    ensures Flat(lists[..i + 1]) == Flat(lists[..i]) + lists[i]
  {
    assert lists[..i + 1][..i] == lists[..i];
  }

  lemma Nothing(m: Entries, params: Params, sha256: Bytes -> Bytes)
    ensures Flat([]) == [] && AddAll(m, Checksums([], sha256), params.ttl) == m
  {
  }

  lemma TakenAll(lists: seq<seq<Bytes>>, params: Params)
    requires |Flat(lists)| <= Max(params.maxLength, 0)
    ensures Taken(lists, params) == Flat(lists)
  {
  }

  lemma TakenStops(lists: seq<seq<Bytes>>, i: nat, j: nat, params: Params)
    requires i < |lists| && j < |lists[i]| && |Flat(lists[..i])| + j == Max(params.maxLength, 0)
    ensures Taken(lists, params) == Flat(lists[..i]) + lists[i][..j]
  {
    FlatSplits(lists, i + 1);
    FlatPrefix(lists, i);
    var first := Flat(lists[..i]);
    assert Flat(lists) == first + lists[i] + Flat(lists[i + 1..]);
    assert (first + lists[i] + Flat(lists[i + 1..]))[..|first| + j] == first + lists[i][..j];
  }
}
