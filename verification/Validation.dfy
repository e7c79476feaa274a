/** The validation pipeline: signature, duplicates, inline and async validators.

    Validators return arbitrary integers.  The verdict on a message is the join
    of what its validators say in the order Accept < Ignore < Throttled < Reject,
    whatever the order in which the async ones finish.
  */
module Validation {
  import opened Ids
  import Delivery

  type ValidationResult = int
  const ACCEPT: ValidationResult := 0
  const REJECT: ValidationResult := 1
  const IGNORE: ValidationResult := 2
  const THROTTLED: ValidationResult := -1

  predicate Known(r: ValidationResult) { r == ACCEPT || r == REJECT || r == IGNORE || r == THROTTLED }

  /** What a validator returns for the message at hand, and whether it found a
      free slot of its own throttle (which only async validation asks for). */
  datatype Validator = Validator(validateInline: bool, returns_: ValidationResult, free: bool)

  // ------------------------------------------------------------ the order of verdicts

  function Rank(r: ValidationResult): nat
    requires Known(r)
  {
    if r == ACCEPT then 0 else if r == IGNORE then 1 else if r == THROTTLED then 2 else 3
  }

  predicate AllKnown(rs: seq<ValidationResult>) { forall i :: 0 <= i < |rs| ==> Known(rs[i]) }

  function Join(rs: seq<ValidationResult>): ValidationResult {
    if REJECT in rs then REJECT else if THROTTLED in rs then THROTTLED else if IGNORE in rs then IGNORE else ACCEPT
  }

  /** Join is the least upper bound. */
  lemma JoinIsLeastUpperBound(rs: seq<ValidationResult>, r: ValidationResult)
    requires AllKnown(rs) && Known(r)
    ensures Known(Join(rs))
    ensures Rank(Join(rs)) <= Rank(r) <==> forall i :: 0 <= i < |rs| ==> Rank(rs[i]) <= Rank(r)
  {
    if i :| 0 <= i < |rs| && rs[i] == Join(rs) {
    } else {
      assert Join(rs) == ACCEPT;
    }
    forall i | 0 <= i < |rs|
      ensures Rank(rs[i]) <= Rank(Join(rs))
    {
      assert rs[i] in rs;
    }
  }

  /** It does not depend on the order. */
  lemma JoinPermutes(a: seq<ValidationResult>, b: seq<ValidationResult>)
    requires multiset(a) == multiset(b)
    ensures Join(a) == Join(b)
  {
    forall r
      ensures r in a <==> r in b
    {
      assert r in a <==> r in multiset(a);
      assert r in b <==> r in multiset(b);
    }
  }

  lemma JoinConcat(a: seq<ValidationResult>, b: seq<ValidationResult>)
    requires AllKnown(a) && AllKnown(b)
    ensures Join(a + b) == if Rank(Join(a)) < Rank(Join(b)) then Join(b) else Join(a)
  {
    forall r
      ensures r in a + b <==> r in a || r in b
    {
    }
  }

  // ------------------------------------------------------------ what a validator contributes

  /** An unexpected result counts as Ignore. */
  function Normalised(r: ValidationResult): ValidationResult {
    if r == ACCEPT || r == REJECT || r == IGNORE then r else IGNORE
  }

  function AsyncResult(val: Validator): ValidationResult { if val.free then Normalised(val.returns_) else THROTTLED }

  function Inline(vals: seq<Validator>, local: bool): seq<Validator> {
    if vals == [] then []
    else
      var init, last := Inline(vals[..|vals| - 1], local), vals[|vals| - 1];
      if last.validateInline || local then init + [last] else init
  }

  function Async(vals: seq<Validator>, local: bool): seq<Validator> {
    if vals == [] then []
    else
      var init, last := Async(vals[..|vals| - 1], local), vals[|vals| - 1];
      if last.validateInline || local then init else init + [last]
  }

  function InlineResults(vals: seq<Validator>): (rs: seq<ValidationResult>)
    ensures |rs| == |vals| && AllKnown(rs)
  {
    seq(|vals|, i requires 0 <= i < |vals| => Normalised(vals[i].returns_))
  }

  function AsyncResults(vals: seq<Validator>): (rs: seq<ValidationResult>)
    ensures |rs| == |vals| && AllKnown(rs)
  {
    seq(|vals|, i requires 0 <= i < |vals| => AsyncResult(vals[i]))
  }

  /** What every validator of a message says; if no goroutine may be started for
      the async ones, they say Throttled together. */
  function Verdicts(vals: seq<Validator>, local: bool, slot: bool): (rs: seq<ValidationResult>)
    ensures AllKnown(rs)
  {
    var async := Async(vals, local);
    InlineResults(Inline(vals, local)) + (if slot || async == [] then AsyncResults(async) else [THROTTLED])
  }

  // ------------------------------------------------------------ outcomes

  datatype Reason = InvalidSignature | ValidationFailed | ValidationIgnored | ValidationThrottled

  datatype Outcome = Duplicate | Rejected(reason: Reason) | Accepted

  function OutcomeOf(r: ValidationResult): Outcome
    requires Known(r)
  {
    if r == ACCEPT then Accepted
    else if r == REJECT then Rejected(ValidationFailed)
    else if r == IGNORE then Rejected(ValidationIgnored)
    else Rejected(ValidationThrottled)
  }

  datatype Signature = Missing | Good | Bad

  /** The whole of validate: a bad signature, a duplicate, or the join. */
  function Judgement(sig: Signature, seen: bool, delivered: bool, vals: seq<Validator>, local: bool,
                     slot: bool): Outcome {
    if sig.Bad? then Rejected(InvalidSignature)
    else if (seen && !local) || delivered then Duplicate
    else OutcomeOf(JoinKnown(Verdicts(vals, local, slot)))
  }

  function JoinKnown(rs: seq<ValidationResult>): (r: ValidationResult)
    requires AllKnown(rs)
    ensures Known(r) && r == Join(rs)
  {
    Join(rs)
  }

  /** A message goes through exactly if its signature is not bad, it is not a
      duplicate, every validator accepts, and nobody was throttled. */
  lemma AcceptedExactly(sig: Signature, seen: bool, delivered: bool, vals: seq<Validator>, local: bool, slot: bool)
    ensures Judgement(sig, seen, delivered, vals, local, slot) == Accepted <==>
            && !sig.Bad? && (!seen || local) && !delivered
            && (forall i :: 0 <= i < |vals| ==> vals[i].returns_ == ACCEPT)
            && (forall i :: 0 <= i < |vals| && !vals[i].validateInline && !local ==> vals[i].free && slot)
  {
    var rs := Verdicts(vals, local, slot);
    var inl, asy := Inline(vals, local), Async(vals, local);
    Partition(vals, local);
    JoinIsLeastUpperBound(rs, ACCEPT);
    assert Join(rs) == ACCEPT <==> AllAre(rs, ACCEPT);
    InlineAccept(inl);
    AsyncAccept(asy, slot);
    AllAreConcat(InlineResults(inl), if slot || asy == [] then AsyncResults(asy) else [THROTTLED], ACCEPT);
  }

  predicate AllAre(rs: seq<ValidationResult>, r: ValidationResult) { forall i :: 0 <= i < |rs| ==> rs[i] == r }

  lemma InlineAccept(vals: seq<Validator>)
    ensures AllAre(InlineResults(vals), ACCEPT) <==> forall v :: v in vals ==> v.returns_ == ACCEPT
  {
    if AllAre(InlineResults(vals), ACCEPT) {
      forall v | v in vals
        ensures v.returns_ == ACCEPT
      {
        var i :| 0 <= i < |vals| && vals[i] == v;
        assert InlineResults(vals)[i] == ACCEPT;
      }
    }
  }

  lemma AsyncAccept(vals: seq<Validator>, slot: bool)
    ensures AllAre(if slot || vals == [] then AsyncResults(vals) else [THROTTLED], ACCEPT)
            <==> forall v :: v in vals ==> v.returns_ == ACCEPT && v.free && slot
  {
    if vals != [] && !slot {
      assert [THROTTLED][0] != ACCEPT;
      assert vals[0] in vals;
    } else if AllAre(AsyncResults(vals), ACCEPT) {
      forall v | v in vals
        ensures v.returns_ == ACCEPT && v.free
      {
        var i :| 0 <= i < |vals| && vals[i] == v;
        assert AsyncResults(vals)[i] == ACCEPT;
      }
    }
  }

  lemma AllAreConcat(a: seq<ValidationResult>, b: seq<ValidationResult>, r: ValidationResult)
    ensures AllAre(a + b, r) <==> AllAre(a, r) && AllAre(b, r)
  {
    if AllAre(a + b, r) {
      assert forall i :: 0 <= i < |a| ==> a[i] == (a + b)[i];
      assert forall i :: 0 <= i < |b| ==> b[i] == (a + b)[|a| + i];
    }
  }

  /** Every validator is in exactly one of the two lists. */
  lemma {:induction false} Partition(vals: seq<Validator>, local: bool)
    ensures forall v :: v in Inline(vals, local) <==> v in vals && (v.validateInline || local)
    ensures forall v :: v in Async(vals, local) <==> v in vals && !(v.validateInline || local)
  {
    if vals != [] {
      Partition(vals[..|vals| - 1], local);
      assert vals == vals[..|vals| - 1] + [vals[|vals| - 1]];
    }
  }

  // ------------------------------------------------------------ the pipeline

  datatype Trace = DuplicateMessage | ValidateMessage | RejectMessage(reason: Reason) | OnValid

  /** A call's trace: it ends in the one event that belongs to its outcome. */
  function TraceOf(o: Outcome): seq<Trace> {
    match o
    case Duplicate => [DuplicateMessage]
    case Rejected(reason) =>
      if reason == InvalidSignature then [RejectMessage(reason)] else [ValidateMessage, RejectMessage(reason)]
    case Accepted => [ValidateMessage, OnValid]
  }

  /** The validator is asked: inline always, otherwise if both throttles have a slot. */
  predicate Asked(v: Validator, local: bool, slot: bool) { v.validateInline || local || (slot && v.free) }

  ghost predicate SomeReject(vals: seq<Validator>, local: bool, slot: bool) {
    exists v :: v in vals && Asked(v, local, slot) && v.returns_ == REJECT
  }

  ghost predicate SomeThrottled(vals: seq<Validator>, local: bool, slot: bool) {
    exists v :: v in vals && !Asked(v, local, slot)
  }

  ghost predicate AllAccept(vals: seq<Validator>) { forall v :: v in vals ==> v.returns_ == ACCEPT }

  lemma VerdictsHave(vals: seq<Validator>, local: bool, slot: bool)
    ensures REJECT in Verdicts(vals, local, slot) <==> SomeReject(vals, local, slot)
    ensures THROTTLED in Verdicts(vals, local, slot) <==> SomeThrottled(vals, local, slot)
  {
    var inl, asy := Inline(vals, local), Async(vals, local);
    Partition(vals, local);
    InlineHave(inl);
    AsyncHave(asy);
    hide InlineResults, AsyncResults, Inline, Async;
    if asy != [] {
      assert asy[0] in asy;
    }
  }

  lemma InlineHave(vals: seq<Validator>)
    ensures THROTTLED !in InlineResults(vals)
    ensures REJECT in InlineResults(vals) <==> exists v :: v in vals && v.returns_ == REJECT
  {
    if v :| v in vals && v.returns_ == REJECT {
      var i :| 0 <= i < |vals| && vals[i] == v;
      assert InlineResults(vals)[i] == REJECT;
    }
    if REJECT in InlineResults(vals) {
      var i :| 0 <= i < |vals| && InlineResults(vals)[i] == REJECT;
      assert vals[i] in vals;
    }
  }

  lemma AsyncHave(vals: seq<Validator>)
    ensures THROTTLED in AsyncResults(vals) <==> exists v :: v in vals && !v.free
    ensures REJECT in AsyncResults(vals) <==> exists v :: v in vals && v.free && v.returns_ == REJECT
  {
    var rs := AsyncResults(vals);
    if v :| v in vals && !v.free {
      var i :| 0 <= i < |vals| && vals[i] == v;
      assert rs[i] == THROTTLED;
    }
    if v :| v in vals && v.free && v.returns_ == REJECT {
      var i :| 0 <= i < |vals| && vals[i] == v;
      assert rs[i] == REJECT;
    }
    if THROTTLED in rs {
      var i :| 0 <= i < |rs| && rs[i] == THROTTLED;
      assert vals[i] in vals;
    }
    if REJECT in rs {
      var i :| 0 <= i < |rs| && rs[i] == REJECT;
      assert vals[i] in vals;
    }
  }

  /** What a message that is judged comes to, by what its validators say and whether they
      could be asked, and the trace of it: rejected beats throttled beats ignored. */
  lemma OutcomeExactly(sig: Signature, seen: bool, delivered: bool, vals: seq<Validator>, local: bool, slot: bool)
    ensures TraceOf(Judgement(sig, seen, delivered, vals, local, slot)) ==
            if sig.Bad? then [RejectMessage(InvalidSignature)]
            else if (seen && !local) || delivered then [DuplicateMessage]
            else [ValidateMessage,
                  if SomeReject(vals, local, slot) then RejectMessage(ValidationFailed)
                  else if SomeThrottled(vals, local, slot) then RejectMessage(ValidationThrottled)
                  else if !AllAccept(vals) then RejectMessage(ValidationIgnored)
                  else OnValid]
  {
    if !sig.Bad? && !((seen && !local) || delivered) {
      AcceptedExactly(sig, seen, delivered, vals, local, slot);
      VerdictsHave(vals, local, slot);
      AcceptMeans(vals, local, slot);
      hide Verdicts;
    }
  }

  lemma AcceptMeans(vals: seq<Validator>, local: bool, slot: bool)
    ensures (forall i :: 0 <= i < |vals| ==> vals[i].returns_ == ACCEPT) <==> AllAccept(vals)
    ensures (forall i :: 0 <= i < |vals| && !vals[i].validateInline && !local ==> vals[i].free && slot) <==>
            !SomeThrottled(vals, local, slot)
  {
    if !SomeThrottled(vals, local, slot) {
      forall i | 0 <= i < |vals| && !vals[i].validateInline && !local
        ensures vals[i].free && slot
      {
        assert vals[i] in vals;
      }
    }
    if AllAccept(vals) {
      assert forall i :: 0 <= i < |vals| ==> vals[i] in vals;
    }
  }

  /** The channel delivers the results of the goroutines in any order. */
  ghost predicate AnyOrder(arrive: seq<ValidationResult> -> seq<ValidationResult>) {
    forall rs :: multiset(arrive(rs)) == multiset(rs)
  }

  method ValidateMsg(val: Validator) returns (r: ValidationResult)
    ensures r == Normalised(val.returns_)
  {
    r := val.returns_;
    if r == ACCEPT || r == REJECT || r == IGNORE {
      return;
    }
    r := IGNORE;
  }

  method ValidateSingleTopic(val: Validator) returns (r: ValidationResult)
    ensures r == AsyncResult(val)
  {
    if val.free {
      r := ValidateMsg(val);
    } else {
      r := THROTTLED;
    }
  }

  /** The first loop fills the channel, the second reads it until a Reject. */
  method ValidateTopic(vals: seq<Validator>, arrive: seq<ValidationResult> -> seq<ValidationResult>)
    returns (result: ValidationResult)
    requires AnyOrder(arrive)
    ensures result == Join(AsyncResults(vals))
  {
    if |vals| == 1 {
      result := ValidateSingleTopic(vals[0]);
      assert AsyncResults(vals) == [result];
      return;
    }
    var rch: seq<ValidationResult> := [];
    for i := 0 to |vals|
      invariant rch == AsyncResults(vals)[..i]
    {
      if vals[i].free {
        var r := ValidateMsg(vals[i]);
        rch := rch + [r];
      } else {
        rch := rch + [THROTTLED];
      }
    }
    assert rch == AsyncResults(vals);
    var arrived := arrive(rch);
    SameResults(rch, arrived);
    result := Collect(arrived);
    JoinPermutes(arrived, rch);
  }

  lemma SameResults(a: seq<ValidationResult>, b: seq<ValidationResult>)
    requires AllKnown(a) && multiset(a) == multiset(b)
    ensures AllKnown(b)
  {
    forall i | 0 <= i < |b|
      ensures Known(b[i])
    {
      assert b[i] in multiset(b);
      assert b[i] in multiset(a);
      assert b[i] in a;
    }
  }

  method Collect(arrived: seq<ValidationResult>) returns (result: ValidationResult)
    requires AllKnown(arrived)
    ensures result == Join(arrived)
  {
    result := ACCEPT;
    for i := 0 to |arrived|
      invariant result == Join(arrived[..i]) && result != REJECT
    {
      assert arrived[..i + 1] == arrived[..i] + [arrived[i]];
      if arrived[i] == REJECT {
        result := REJECT;
        return;
      } else if arrived[i] == IGNORE {
        if result != THROTTLED {
          result := IGNORE;
        }
      } else if arrived[i] == THROTTLED {
        result := THROTTLED;
      }
    }
    assert arrived[..|arrived|] == arrived;
  }

  /** The goroutine of the async validators.  The branch that panics is dead. */
  method DoValidateTopic(vals: seq<Validator>, r: ValidationResult,
                         arrive: seq<ValidationResult> -> seq<ValidationResult>)
    returns (trace: Trace)
    requires AnyOrder(arrive) && (r == ACCEPT || r == IGNORE)
    ensures [ValidateMessage, trace] == TraceOf(OutcomeOf(JoinKnown(AsyncResults(vals) + [r])))
  {
    var result := ValidateTopic(vals, arrive);
    JoinIsLeastUpperBound(AsyncResults(vals), ACCEPT);
    JoinConcat(AsyncResults(vals), [r]);
    if result == ACCEPT && r != ACCEPT {
      result := r;
    }
    if result == ACCEPT {
      trace := OnValid;
    } else if result == REJECT {
      trace := RejectMessage(ValidationFailed);
    } else if result == IGNORE {
      trace := RejectMessage(ValidationIgnored);
    } else if result == THROTTLED {
      trace := RejectMessage(ValidationThrottled);
    } else {
      assert false;
    }
  }

  /** The inline validators run until one rejects. */
  method RunInline(vals: seq<Validator>) returns (result: ValidationResult)
    ensures result == Join(InlineResults(vals))
  {
    result := ACCEPT;
    ghost var rs := InlineResults(vals);
    for i := 0 to |vals|
      invariant result == Join(rs[..i]) && (result == ACCEPT || result == IGNORE)
    {
      assert rs[..i + 1] == rs[..i] + [rs[i]];
      var r := ValidateMsg(vals[i]);
      if r == REJECT {
        assert REJECT in rs;
        result := REJECT;
        return;
      } else if r == IGNORE {
        result := IGNORE;
      }
    }
    assert rs[..|vals|] == rs;
  }

  method Split(vals: seq<Validator>, local: bool) returns (inline: seq<Validator>, async: seq<Validator>)
    ensures inline == Inline(vals, local) && async == Async(vals, local)
  {
    inline, async := [], [];
    for i := 0 to |vals|
      invariant inline == Inline(vals[..i], local) && async == Async(vals[..i], local)
    {
      assert vals[..i + 1][..i] == vals[..i];
      if vals[i].validateInline || local {
        inline := inline + [vals[i]];
      } else {
        async := async + [vals[i]];
      }
    }
    assert vals[..|vals|] == vals;
  }

  /** The validators of a message that is neither forged nor a duplicate. */
  method RunValidators(vals: seq<Validator>, local: bool, slot: bool,
                       arrive: seq<ValidationResult> -> seq<ValidationResult>)
    returns (trace: Trace)
    requires AnyOrder(arrive)
    ensures [ValidateMessage, trace] == TraceOf(OutcomeOf(JoinKnown(Verdicts(vals, local, slot))))
  {
    var inline, async := Split(vals, local);
    var result := RunInline(inline);
    ghost var a, b := InlineResults(inline), if slot || async == [] then AsyncResults(async) else [THROTTLED];
    JoinIsLeastUpperBound(a, ACCEPT);
    JoinIsLeastUpperBound(b, ACCEPT);
    JoinConcat(a, b);
    if result == REJECT {
      return RejectMessage(ValidationFailed);
    }
    if |async| > 0 {
      if slot {
        JoinConcat(b, [result]);
        trace := DoValidateTopic(async, result, arrive);
      } else {
        trace := RejectMessage(ValidationThrottled);
      }
      return;
    }
    assert b == [];
    if result == IGNORE {
      return RejectMessage(ValidationIgnored);
    }
    return OnValid;
  }

  class Pipeline {
    const seen: Delivery.TimeCache
    const delivered: Delivery.TimeCache

    constructor (strategy: Delivery.Strategy, ttl: Duration)
      ensures fresh(seen) && fresh(delivered) && seen != delivered
    {
      seen := new Delivery.TimeCache(strategy, ttl);
      delivered := new Delivery.TimeCache(strategy, ttl);
    }

    /** A call leaves the trace of its outcome, and so exactly one of a duplicate,
        a reject and onValid.  The id is marked as seen unless the signature is bad, and
        the delivered ids are asked only if that does not tell a duplicate already. */
    method Validate(id: MsgId, sig: Signature, vals: seq<Validator>, local: bool, slot: bool,
                    arrive: seq<ValidationResult> -> seq<ValidationResult>, now: Time)
      returns (trace: seq<Trace>)
      requires AnyOrder(arrive) && seen != delivered
      modifies seen, delivered
      ensures trace == TraceOf(Judgement(sig, id in old(seen.m), id in old(delivered.m), vals, local, slot))
      ensures sig.Bad? ==> seen.m == old(seen.m)
      ensures !sig.Bad? ==>
                && id in seen.m
                && seen.m == Delivery.After(old(seen.m), Delivery.Op.Add(id, now), seen.strategy, seen.ttl)
      ensures delivered.m == if !sig.Bad? && (local || id !in old(seen.m))
                             then Delivery.After(old(delivered.m), Delivery.Op.Has(id, now),
                                                 delivered.strategy, delivered.ttl)
                             else old(delivered.m)
    {
      if !sig.Missing? {
        if !sig.Good? {
          return [RejectMessage(InvalidSignature)];
        }
      }
      var marked := seen.Add(id, now);
      var duplicate := !marked && !local;
      if !duplicate {
        duplicate := delivered.Has(id, now);
      }
      if duplicate {
        return [DuplicateMessage];
      }
      var last := RunValidators(vals, local, slot, arrive);
      trace := [ValidateMessage, last];
    }
  }
}
