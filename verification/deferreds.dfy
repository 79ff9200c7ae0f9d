/** The fallback `MockDeferred`, `MockReactor` and `DeferredList` of the Twisted
    iteration benchmark, which it uses when the Twisted library is absent, and
    the arithmetic callback chain it builds on them. Python's dynamic values are
    the datatype `Value`; a callback is a total function that either returns a
    value or raises one. The reactor's clock is the explicit `now`. */
module Deferreds {
  import opened Common
  import opened Grouping

  /** The values that flow through the benchmark's callback chains. An
      exception object is a value too: `addCallback` stores a raised exception
      as the result. `Pairs` is the list of `(success, result)` pairs a
      `DeferredList` carries, `Summary` the dict `process_results` builds
      (without its floating-point success rate). */
  datatype Value =
    | NoneValue
    | Num(n: int)
    | Text(s: string)
    | Exn(message: string)
    | Pairs(items: seq<(bool, Value)>)
    | Summary(successful: seq<Value>, failed: seq<Value>, total: nat)

  /** What calling a callback does: it returns a value or raises an exception. */
  datatype Outcome = Returns(value: Value) | Raises(error: Value)

  type Callback = Value -> Outcome

  /** The value an assignment `x = f(x)` guarded by `except Exception as e: x = e` stores. */
  function Settle(o: Outcome): (v: Value)
    ensures o.Returns? ==> v == o.value
    ensures o.Raises? ==> v == o.error
  {
    match o
    case Returns(v) => v
    case Raises(e) => e
  }

  // ---------------------------------------------------------------------------
  // MockDeferred
  // ---------------------------------------------------------------------------

  /** `MockDeferred`: the current result, the registered callbacks and
      errbacks, and whether it has fired. */
  datatype Deferred = Deferred(result: Value, callbacks: seq<Callback>, errbacks: seq<Callback>, called: bool)

  /** `MockDeferred(result)`: not fired, nothing registered. */
  function NewDeferred(result: Value): Deferred {
    Deferred(result, [], [], false)
  }

  /** `addCallback`. On a fired deferred the callback runs at once on the
      current result and is not kept; an exception it raises becomes the
      result. Otherwise it is queued. The source returns `self`, so the
      updated deferred is the result here. */
  function AddCallback(d: Deferred, cb: Callback): (r: Deferred)
    ensures r.called == d.called && r.errbacks == d.errbacks
    ensures d.called ==> r.callbacks == d.callbacks && r.result == Settle(cb(d.result))
    ensures !d.called ==> r.callbacks == d.callbacks + [cb] && r.result == d.result
  {
    if d.called then d.(result := Settle(cb(d.result)))
    else d.(callbacks := d.callbacks + [cb])
  }

  /** `addErrback`: only registers, whether or not the deferred has fired. */
  function AddErrback(d: Deferred, eb: Callback): (r: Deferred)
    ensures r.errbacks == d.errbacks + [eb]
    ensures r.result == d.result && r.callbacks == d.callbacks && r.called == d.called
  {
    d.(errbacks := d.errbacks + [eb])
  }

  /** Position of the first errback that returns normally on `e`, or `|ebs|`
      when every one raises. */
  function FirstReturning(ebs: seq<Callback>, e: Value): (k: nat)
    ensures k <= |ebs|
    ensures forall j :: 0 <= j < k ==> ebs[j](e).Raises?
    ensures k < |ebs| ==> ebs[k](e).Returns?
    decreases |ebs|
  {
    if |ebs| == 0 then 0
    else if ebs[0](e).Returns? then 0
    else 1 + FirstReturning(ebs[1..], e)
  }

  /** The loop `for eb in errbacks: try: result = eb(e); break except: continue`:
      the value of the first errback that returns normally, if any. */
  function FirstRecovery(ebs: seq<Callback>, e: Value): (r: Option<Value>)
    ensures r.None? <==> forall j :: 0 <= j < |ebs| ==> ebs[j](e).Raises?
    ensures r.Some? ==> exists k :: 0 <= k < |ebs| && ebs[k](e) == Returns(r.value)
                                   && forall j :: 0 <= j < k ==> ebs[j](e).Raises?
  {
    var k := FirstReturning(ebs, e);
    if k < |ebs| then Some(ebs[k](e).value) else None
  }

  /** The callback loop of `callback()`, starting from the value fired with:
      each callback gets the previous result; the first one that raises ends
      the loop, and the first errback that recovers from its exception supplies
      the result. If none recovers, the result stays the value the failing
      callback was given. */
  function RunChain(cbs: seq<Callback>, ebs: seq<Callback>, v: Value): Value
    decreases |cbs|
  {
    if |cbs| == 0 then v
    else
      match cbs[0](v)
      case Returns(w) => RunChain(cbs[1..], ebs, w)
      case Raises(e) => FirstRecovery(ebs, e).GetOr(v)
  }

  /** `callback(result)`: ignored once fired; otherwise fires, and the
      registered callbacks run over `result`. They stay registered. */
  function FireCallback(d: Deferred, v: Value): (r: Deferred)
    ensures r.called
    ensures d.called ==> r == d
    ensures !d.called ==> r.callbacks == d.callbacks && r.errbacks == d.errbacks
    ensures !d.called ==> r.result == RunChain(d.callbacks, d.errbacks, v)
  {
    if d.called then d
    else d.(called := true, result := RunChain(d.callbacks, d.errbacks, v))
  }

  /** `errback(error)`: ignored once fired; otherwise fires without running any
      callback. The first errback that returns normally supplies the result;
      when every one raises, the result is the error itself. */
  function FireErrback(d: Deferred, error: Value): (r: Deferred)
    ensures r.called
    ensures d.called ==> r == d
    ensures !d.called ==> r.callbacks == d.callbacks && r.errbacks == d.errbacks
    ensures !d.called && (forall j :: 0 <= j < |d.errbacks| ==> d.errbacks[j](error).Raises?) ==> r.result == error
    ensures !d.called && d.errbacks != [] && d.errbacks[0](error).Returns? ==> r.result == d.errbacks[0](error).value
    ensures !d.called ==> forall k :: 0 <= k < |d.errbacks| && d.errbacks[k](error).Returns?
                                      && (forall j :: 0 <= j < k ==> d.errbacks[j](error).Raises?)
                                      ==> r.result == d.errbacks[k](error).value
  {
    if d.called then d
    else d.(called := true, result := FirstRecovery(d.errbacks, error).GetOr(error))
  }

  /** A deferred fires at most once: after `callback` or `errback`, a further
      `callback` or `errback` changes nothing. */
  lemma FireOnce(d: Deferred, v: Value, w: Value)
    ensures var f := FireCallback(d, v); FireCallback(f, w) == f && FireErrback(f, w) == f
    ensures var f := FireErrback(d, v); FireCallback(f, w) == f && FireErrback(f, w) == f
  {
  }

  /** The callbacks as an exception-free pipeline: the value they produce one
      after the other, in registration order, or `None` if one of them raises.
      Defined from the last callback backwards, independently of `RunChain`. */
  function Pipe(cbs: seq<Callback>, v: Value): Option<Value>
    decreases |cbs|
  {
    if |cbs| == 0 then Some(v)
    else
      match Pipe(cbs[..|cbs| - 1], v)
      case None => None
      case Some(w) =>
        match cbs[|cbs| - 1](w)
        case Returns(x) => Some(x)
        case Raises(_) => None
  }

  /** `Pipe` read from the front: the first callback, then the rest. */
  lemma {:induction false} PipeFront(cbs: seq<Callback>, v: Value)
    requires |cbs| > 0
    ensures cbs[0](v).Raises? ==> Pipe(cbs, v).None?
    ensures cbs[0](v).Returns? ==> Pipe(cbs, v) == Pipe(cbs[1..], cbs[0](v).value)
    decreases |cbs|
  {
    if |cbs| > 1 {
      var init := cbs[..|cbs| - 1];
      PipeFront(init, v);
      assert init[1..] == cbs[1..][..|cbs[1..]| - 1];
    }
  }

  /** When no callback raises, firing runs them in registration order, each on
      the previous result, and the errbacks play no part. */
  lemma {:induction false} PipeRuns(cbs: seq<Callback>, ebs: seq<Callback>, v: Value)
    requires Pipe(cbs, v).Some?
    ensures RunChain(cbs, ebs, v) == Pipe(cbs, v).value
    decreases |cbs|
  {
    if |cbs| > 0 {
      PipeFront(cbs, v);
      PipeRuns(cbs[1..], ebs, cbs[0](v).value);
    }
  }

  /** When a callback raises after the ones before it returned `w`, the
      callbacks after it never run: the result is the first recovering
      errback's value, or `w`. */
  lemma {:induction false} RaiseSkipsRest(pre: seq<Callback>, c: Callback, post: seq<Callback>, ebs: seq<Callback>, v: Value)
    requires Pipe(pre, v).Some? && c(Pipe(pre, v).value).Raises?
    ensures var w := Pipe(pre, v).value;
      RunChain(pre + [c] + post, ebs, v) == FirstRecovery(ebs, c(w).error).GetOr(w)
    decreases |pre|
  {
    if |pre| > 0 {
      PipeFront(pre, v);
      assert (pre + [c] + post)[1..] == pre[1..] + [c] + post;
      RaiseSkipsRest(pre[1..], c, post, ebs, pre[0](v).value);
    } else {
      assert pre + [c] + post == [c] + post;
    }
  }

  /** Registering a callback before firing or after it gives the same result,
      as long as no callback raises. */
  lemma LateRegistration(d: Deferred, cb: Callback, v: Value)
    requires !d.called && Pipe(d.callbacks + [cb], v).Some?
    ensures FireCallback(AddCallback(d, cb), v).result == AddCallback(FireCallback(d, v), cb).result
  {
    var cbs := d.callbacks + [cb];
    assert cbs[..|cbs| - 1] == d.callbacks;
    PipeRuns(d.callbacks, d.errbacks, v);
    PipeRuns(cbs, d.errbacks, v);
  }

  /** If the callback raises, the two orders differ: registered before firing,
      its exception goes to the errbacks; registered after, the exception
      itself becomes the result. */
  lemma RaisingRegistration(d: Deferred, cb: Callback, v: Value)
    requires !d.called && Pipe(d.callbacks, v).Some? && cb(Pipe(d.callbacks, v).value).Raises?
    ensures var w := Pipe(d.callbacks, v).value;
      var e := cb(w).error;
      FireCallback(AddCallback(d, cb), v).result == FirstRecovery(d.errbacks, e).GetOr(w)
      && AddCallback(FireCallback(d, v), cb).result == e
  {
    PipeRuns(d.callbacks, d.errbacks, v);
    RaiseSkipsRest(d.callbacks, cb, [], d.errbacks, v);
    assert d.callbacks + [cb] + [] == d.callbacks + [cb];
  }

  // ---------------------------------------------------------------------------
  // The arithmetic callback chain
  // ---------------------------------------------------------------------------

  const TypeError := Exn("TypeError")
  const ValueError := Exn("ValueError")

  /** `add_one`: `result + 1`. */
  function AddOne(v: Value): (o: Outcome)
    ensures v.Num? ==> o == Returns(Num(v.n + 1))
    ensures !v.Num? ==> o.Raises?
  {
    match v
    case Num(n) => Returns(Num(n + 1))
    case _ => Raises(TypeError)
  }

  /** `multiply_two`: `result * 2`; on a string or a list Python repeats it. */
  function MultiplyTwo(v: Value): (o: Outcome)
    ensures v.Num? ==> o == Returns(Num(v.n * 2))
  {
    match v
    case Num(n) => Returns(Num(n * 2))
    case Text(s) => Returns(Text(s + s))
    case Pairs(items) => Returns(Pairs(items + items))
    case _ => Raises(TypeError)
  }

  /** `subtract_ten`: `result - 10`. */
  function SubtractTen(v: Value): (o: Outcome)
    ensures v.Num? ==> o == Returns(Num(v.n - 10))
    ensures !v.Num? ==> o.Raises?
  {
    match v
    case Num(n) => Returns(Num(n - 10))
    case _ => Raises(TypeError)
  }

  /** Entry `i` of `[add_one, multiply_two, subtract_ten] * k`. */
  function Cyclic(i: nat): Callback {
    if i % 3 == 0 then AddOne else if i % 3 == 1 then MultiplyTwo else SubtractTen
  }

  /** `create_simple_deferred(value)` with no delay: a fresh deferred fired at once. */
  function SimpleDeferred(value: Value): (d: Deferred)
    ensures d.called && d.result == value && d.callbacks == [] && d.errbacks == []
  {
    FireCallback(NewDeferred(NoneValue), value)
  }

  /** `d.addCallback(cb)` for each `cb` in order. */
  function AddCallbacks(d: Deferred, cbs: seq<Callback>): Deferred
    decreases |cbs|
  {
    if |cbs| == 0 then d else AddCallbacks(AddCallback(d, cbs[0]), cbs[1..])
  }

  /** `create_chained_deferreds(count, base_value)`. The list of callbacks has
      `3 * (count // 3 + 1)` entries (none for a negative repeat count); Dafny's
      `/` agrees with Python's `//` for the positive divisor 3. The loop adds
      the first `min(count, len(callbacks))` of them. */
  function ChainedDeferred(count: int, base: int): Deferred {
    var reps := count / 3 + 1;
    var callbacks := if reps <= 0 then [] else seq(3 * reps, i requires 0 <= i < 3 * reps => Cyclic(i));
    var steps := if count < |callbacks| then count else |callbacks|;
    AddCallbacks(SimpleDeferred(Num(base)), if steps <= 0 then [] else callbacks[..steps])
  }

  /** The `i`-th step of the chain on integers. */
  function StepValue(i: nat, n: int): int {
    if i % 3 == 0 then n + 1 else if i % 3 == 1 then n * 2 else n - 10
  }

  /** The value after the first `k` steps of the chain, one step at a time. */
  function Iterate(k: nat, n: int): int
    decreases k
  {
    if k == 0 then n else StepValue(k - 1, Iterate(k - 1, n))
  }

  /** Adding callbacks to a fired deferred applies them at once, one after the other. */
  lemma {:induction false} AddCallbacksSnoc(d: Deferred, cbs: seq<Callback>, cb: Callback)
    ensures AddCallbacks(d, cbs + [cb]) == AddCallback(AddCallbacks(d, cbs), cb)
    decreases |cbs|
  {
    if |cbs| == 0 {
      assert cbs + [cb] == [cb];
    } else {
      assert (cbs + [cb])[1..] == cbs[1..] + [cb];
      AddCallbacksSnoc(AddCallback(d, cbs[0]), cbs[1..], cb);
    }
  }

  /** The first `k` entries of the cyclic list, applied to a deferred fired
      with `n`, leave `Iterate(k, n)` and register nothing. */
  lemma {:induction false} CyclicSteps(d: Deferred, n: int, cbs: seq<Callback>)
    requires d.called && d.result == Num(n) && d.callbacks == []
    requires forall i :: 0 <= i < |cbs| ==> cbs[i] == Cyclic(i)
    ensures AddCallbacks(d, cbs).result == Num(Iterate(|cbs|, n))
    ensures AddCallbacks(d, cbs).called && AddCallbacks(d, cbs).callbacks == []
    decreases |cbs|
  {
    if |cbs| > 0 {
      var k := |cbs| - 1;
      var init := cbs[..k];
      assert cbs == init + [cbs[k]];
      CyclicSteps(d, n, init);
      AddCallbacksSnoc(d, init, cbs[k]);
    }
  }

  /** Three steps map `x` to `2x - 8`, whose fixed point is 8, so after `q`
      full rounds the value is `2^q * (n - 8) + 8`; a partial round adds one,
      then doubles. */
  function ClosedForm(k: nat, n: int): int {
    var v := Pow2(k / 3) * (n - 8) + 8;
    if k % 3 == 0 then v else if k % 3 == 1 then v + 1 else 2 * (v + 1)
  }

  lemma IterateClosedForm(k: nat, n: int)
    ensures Iterate(k, n) == ClosedForm(k, n)
  {
    var q, r := k / 3, k % 3;
    RoundsClosedForm(q, n);
    assert k == 3 * q + r;
    if r >= 1 {
      assert Iterate(3 * q + 1, n) == Iterate(3 * q, n) + 1;
    }
    if r == 2 {
      assert Iterate(3 * q + 2, n) == 2 * Iterate(3 * q + 1, n);
    }
  }

  /** One round of three steps maps `x` to `2x - 8`. */
  lemma ThreeSteps(k: nat, n: int)
    requires k % 3 == 0
    ensures Iterate(k + 3, n) == 2 * Iterate(k, n) - 8
  {
    assert Iterate(k + 1, n) == Iterate(k, n) + 1;
    assert Iterate(k + 2, n) == 2 * Iterate(k + 1, n);
  }

  lemma {:induction false} RoundsClosedForm(q: nat, n: int)
    ensures Iterate(3 * q, n) == Pow2(q) * (n - 8) + 8
    decreases q
  {
    if q > 0 {
      RoundsClosedForm(q - 1, n);
      ThreeSteps(3 * (q - 1), n);
      assert 3 * (q - 1) + 3 == 3 * q;
      assert 2 * (Pow2(q - 1) * (n - 8)) == (2 * Pow2(q - 1)) * (n - 8);
    }
  }

  /** `create_chained_deferreds(count, base)` is fired, keeps no pending
      callback, and holds `base` after exactly `max(count, 0)` cyclic steps,
      in closed form. */
  lemma ChainedDeferredValue(count: int, base: int)
    ensures var d := ChainedDeferred(count, base);
      d.called && d.callbacks == []
      && d.result == Num(if count <= 0 then base else ClosedForm(count, base))
  {
    var reps := count / 3 + 1;
    var callbacks := if reps <= 0 then [] else seq(3 * reps, i requires 0 <= i < 3 * reps => Cyclic(i));
    var steps := if count < |callbacks| then count else |callbacks|;
    var cbs := if steps <= 0 then [] else callbacks[..steps];
    assert count > 0 ==> steps == count;
    CyclicSteps(SimpleDeferred(Num(base)), base, cbs);
    if count > 0 {
      IterateClosedForm(count, base);
    }
  }

  // ---------------------------------------------------------------------------
  // The mock DeferredList and process_results
  // ---------------------------------------------------------------------------

  /** The mock `DeferredList`: every `MockDeferred` has a `_result` attribute,
      so each one, fired or not, contributes `(True, result)`. The list comes
      back in a fresh deferred that has not fired. */
  function DeferredList(ds: seq<Deferred>): (r: Deferred)
    ensures !r.called && r.callbacks == [] && r.errbacks == []
    ensures r.result.Pairs? && |r.result.items| == |ds|
    ensures forall i :: 0 <= i < |ds| ==> r.result.items[i] == (true, ds[i].result)
  {
    NewDeferred(Pairs(seq(|ds|, i requires 0 <= i < |ds| => (true, ds[i].result))))
  }

  predicate IsSuccess(p: (bool, Value)) {
    p.0
  }

  predicate IsFailure(p: (bool, Value)) {
    !p.0
  }

  /** The second components of a list of pairs. */
  function Results(ps: seq<(bool, Value)>): (vs: seq<Value>)
    ensures |vs| == |ps| && forall i :: 0 <= i < |ps| ==> vs[i] == ps[i].1
  {
    seq(|ps|, i requires 0 <= i < |ps| => ps[i].1)
  }

  /** `process_results`: one pass over the pairs, appending each result to the
      successful or the failed list by its flag. */
  function ProcessResults(results: seq<(bool, Value)>): (r: Value)
    ensures r.Summary? && r.total == |results|
    decreases |results|
  {
    if |results| == 0 then Summary([], [], 0)
    else
      var p := results[|results| - 1];
      var s := ProcessResults(results[..|results| - 1]);
      if p.0 then Summary(s.successful + [p.1], s.failed, s.total + 1)
      else Summary(s.successful, s.failed + [p.1], s.total + 1)
  }

  /** `process_results` keeps the input order within each list: the successful
      list holds the results flagged true, the failed list those flagged false. */
  lemma ProcessResultsSplits(results: seq<(bool, Value)>)
    ensures ProcessResults(results).successful == Results(Filter(results, IsSuccess))
    ensures ProcessResults(results).failed == Results(Filter(results, IsFailure))
  {
    SuccessfulInOrder(results);
    FailedInOrder(results);
  }

  lemma {:induction false} SuccessfulInOrder(results: seq<(bool, Value)>)
    ensures ProcessResults(results).successful == Results(Filter(results, IsSuccess))
    decreases |results|
  {
    if |results| > 0 {
      var init := results[..|results| - 1];
      var p := results[|results| - 1];
      SuccessfulInOrder(init);
      SplitLast(results);
      FilterSnoc(init, p, IsSuccess);
      ResultsSnoc(Filter(init, IsSuccess), p);
      EmptyConcat(Filter(init, IsSuccess));
    }
  }

  lemma {:induction false} FailedInOrder(results: seq<(bool, Value)>)
    ensures ProcessResults(results).failed == Results(Filter(results, IsFailure))
    decreases |results|
  {
    if |results| > 0 {
      var init := results[..|results| - 1];
      var p := results[|results| - 1];
      FailedInOrder(init);
      SplitLast(results);
      FilterSnoc(init, p, IsFailure);
      ResultsSnoc(Filter(init, IsFailure), p);
      EmptyConcat(Filter(init, IsFailure));
    }
  }

  lemma ResultsSnoc(ps: seq<(bool, Value)>, p: (bool, Value))
    ensures Results(ps + [p]) == Results(ps) + [p.1]
  {
  }

  /** Every result lands in exactly one of the two lists. */
  lemma ProcessResultsPartition(results: seq<(bool, Value)>)
    ensures var r := ProcessResults(results); |r.successful| + |r.failed| == r.total
  {
    ProcessResultsSplits(results);
    SuccessFailureCount(results);
  }

  lemma {:induction false} SuccessFailureCount(ps: seq<(bool, Value)>)
    ensures CountIf(ps, IsSuccess) + CountIf(ps, IsFailure) == |ps|
    decreases |ps|
  {
    if |ps| > 0 {
      SuccessFailureCount(ps[1..]);
    }
  }

  /** `process_results` as a callback. A list of pairs is summarised. The
      empty string iterates as an empty sequence and gives an empty summary. A
      non-empty string yields one-character strings and a dict yields its
      key strings, neither of which unpacks into `success, result`. Anything
      else is not iterable. */
  function ProcessResultsCallback(v: Value): (o: Outcome)
    ensures o.Returns? <==> v.Pairs? || v == Text("")
    ensures o.Returns? ==> o.value.Summary? && o.value.total == (if v.Pairs? then |v.items| else 0)
    ensures v.Pairs? ==> o.value == ProcessResults(v.items)
    ensures o.Raises? ==> o.error == (if v.Text? || v.Summary? then ValueError else TypeError)
  {
    match v
    case Pairs(items) => Returns(ProcessResults(items))
    case Text(s) => if |s| == 0 then Returns(ProcessResults([])) else Raises(ValueError)
    case Summary(_, _, _) => Raises(ValueError)
    case _ => Raises(TypeError)
  }

  /** `process_deferred_list`. */
  function ProcessDeferredList(ds: seq<Deferred>): Deferred {
    AddCallback(DeferredList(ds), ProcessResultsCallback)
  }

  /** In the fallback path the list's deferred never fires, so `process_results`
      is only registered and never runs: the deferred still holds the raw
      pairs, all flagged successful. Were it fired with a list of pairs, the
      summary of that list would be the result. */
  lemma ProcessDeferredListPending(ds: seq<Deferred>)
    ensures var d := ProcessDeferredList(ds);
      !d.called && |d.callbacks| == 1 && d.result == DeferredList(ds).result
      && (forall i :: 0 <= i < |d.result.items| ==> d.result.items[i].0)
  {
  }

  lemma ProcessDeferredListOnFire(ds: seq<Deferred>, items: seq<(bool, Value)>)
    ensures FireCallback(ProcessDeferredList(ds), Pairs(items)).result == ProcessResults(items)
  {
    var d := ProcessDeferredList(ds);
    assert d.callbacks == [ProcessResultsCallback];
    assert RunChain(d.callbacks, d.errbacks, Pairs(items)) == RunChain([], d.errbacks, ProcessResults(items));
  }

  // ---------------------------------------------------------------------------
  // MockReactor
  // ---------------------------------------------------------------------------

  /** A call scheduled with `callLater`. Its effect on the rest of the program
      is a function of the state `W` it runs in; an exception the source
      swallows is part of that function. */
  datatype DelayedCall<!W> = DelayedCall(callTime: int, action: W -> W)

  datatype Reactor<!W> = Reactor(delayed: seq<DelayedCall<W>>, running: bool)

  function NewReactor<W>(): Reactor<W> {
    Reactor([], false)
  }

  /** `callLater(delay, callback)`: appends the call, due at `now + delay`,
      and returns its position in the list. */
  function CallLater<W>(r: Reactor<W>, now: int, delay: int, action: W -> W): (res: (Reactor<W>, nat))
    ensures |res.0.delayed| == |r.delayed| + 1 && res.0.delayed[..|r.delayed|] == r.delayed
    ensures res.1 == |r.delayed| && res.0.delayed[res.1] == DelayedCall(now + delay, action)
    ensures res.0.running == r.running
  {
    (r.(delayed := r.delayed + [DelayedCall(now + delay, action)]), |r.delayed|)
  }

  /** `stop`. */
  function Stop<W>(r: Reactor<W>): (s: Reactor<W>)
    ensures !s.running && s.delayed == r.delayed
  {
    r.(running := false)
  }

  function IsDue<W>(now: int): DelayedCall<W> -> bool {
    (c: DelayedCall<W>) => c.callTime <= now
  }

  function IsWaiting<W>(now: int): DelayedCall<W> -> bool {
    (c: DelayedCall<W>) => c.callTime > now
  }

  /** Running calls one after the other, in list order. */
  function RunAll<W>(cs: seq<DelayedCall<W>>, w: W): W
    decreases |cs|
  {
    if |cs| == 0 then w else cs[|cs| - 1].action(RunAll(cs[..|cs| - 1], w))
  }

  /** Increasing positions. */
  predicate Increasing(xs: seq<int>) {
    forall a, b :: 0 <= a < b < |xs| ==> xs[a] < xs[b]
  }

  /** `executed` holds exactly the positions below `bound` of the due calls. */
  predicate ExecutedBelow<W>(calls: seq<DelayedCall<W>>, now: int, executed: seq<int>, bound: nat)
    requires bound <= |calls|
  {
    (forall x :: x in executed ==> 0 <= x < bound && calls[x].callTime <= now)
    && (forall j :: 0 <= j < bound && calls[j].callTime <= now ==> j in executed)
  }

  /** `run_pending` at time `now`, on the state `w`: the first loop runs every
      due call in list order and records its position; the second deletes
      those positions from the back. The calls still waiting stay, in their
      order. */
  method RunPending<W(!new)>(r: Reactor<W>, now: int, w: W) returns (r': Reactor<W>, w': W)
    ensures w' == RunAll(Filter(r.delayed, IsDue(now)), w)
    ensures r'.delayed == Filter(r.delayed, IsWaiting(now))
    ensures r'.running == r.running
  {
    var executed;
    executed, w' := RunDue(r.delayed, now, w);
    var pending := DeleteExecuted(r.delayed, now, executed);
    r' := r.(delayed := pending);
  }

  /** The first loop of `run_pending`: runs the due calls in list order and
      returns their positions, in increasing order. */
  method RunDue<W(!new)>(calls: seq<DelayedCall<W>>, now: int, w: W) returns (executed: seq<int>, w': W)
    ensures w' == RunAll(Filter(calls, IsDue(now)), w)
    ensures Increasing(executed) && ExecutedBelow(calls, now, executed, |calls|)
  {
    executed := [];
    w' := w;
    var i := 0;
    while i < |calls|
      invariant 0 <= i <= |calls|
      invariant w' == RunAll(Filter(calls[..i], IsDue(now)), w)
      invariant Increasing(executed) && ExecutedBelow(calls, now, executed, i)
    {
      AdvanceDue(calls, now, i, w, executed, w');
      if calls[i].callTime <= now {
        w' := calls[i].action(w');
        executed := executed + [i];
      }
      i := i + 1;
    }
    TakeAll(calls);
  }

  /** The second loop of `run_pending`: deletes the recorded positions, last
      first, so that the earlier positions stay valid. What remains is
      exactly the calls that are not yet due, in their order. */
  method DeleteExecuted<W(!new)>(calls: seq<DelayedCall<W>>, now: int, executed: seq<int>) returns (pending: seq<DelayedCall<W>>)
    requires Increasing(executed) && ExecutedBelow(calls, now, executed, |calls|)
    ensures pending == Filter(calls, IsWaiting(now))
  {
    pending := calls;
    var k := |executed|;
    var m: nat := |calls|;
    NothingDeleted(calls, now);
    while k > 0
      invariant 0 <= k <= |executed| && m <= |calls|
      invariant k == |executed| ==> m == |calls|
      invariant k < |executed| ==> m == executed[k]
      invariant pending == calls[..m] + Filter(calls[m..], IsWaiting(now))
    {
      var e := executed[k - 1];
      AdvanceDelete(calls, now, executed, k, m, pending);
      pending := pending[..e] + pending[e + 1..];
      k := k - 1;
      m := e;
    }
    HeadWaiting(calls, now, executed, m);
    PrefixKept(calls, now, m);
  }

  /** One iteration of the second loop keeps its invariant. */
  lemma AdvanceDelete<W(!new)>(calls: seq<DelayedCall<W>>, now: int, executed: seq<int>, k: nat, m: nat, pending: seq<DelayedCall<W>>)
    requires Increasing(executed) && ExecutedBelow(calls, now, executed, |calls|)
    requires 0 < k <= |executed| && m <= |calls| && m == if k == |executed| then |calls| else executed[k]
    requires pending == calls[..m] + Filter(calls[m..], IsWaiting(now))
    ensures var e := executed[k - 1];
      0 <= e < m && e < |pending|
      && pending[..e] + pending[e + 1..] == calls[..e] + Filter(calls[e..], IsWaiting(now))
  {
    GapWaiting(calls, now, executed, k, m);
    DeleteStep(calls, now, executed[k - 1], m, pending);
  }

  /** One iteration of the first loop keeps its invariant. */
  lemma AdvanceDue<W(!new)>(calls: seq<DelayedCall<W>>, now: int, i: nat, w: W, executed: seq<int>, cur: W)
    requires i < |calls| && cur == RunAll(Filter(calls[..i], IsDue(now)), w)
    requires Increasing(executed) && ExecutedBelow(calls, now, executed, i)
    ensures var due := calls[i].callTime <= now;
      var next := if due then executed + [i] else executed;
      (if due then calls[i].action(cur) else cur) == RunAll(Filter(calls[..i + 1], IsDue(now)), w)
      && Increasing(next) && ExecutedBelow(calls, now, next, i + 1)
  {
    RunStep(calls, now, i, w);
    ExecutedStep(calls, now, executed, i);
  }

  /** One step of the first loop: the due calls among the first `i + 1` are
      those among the first `i`, then call `i` if it is due. */
  lemma RunStep<W(!new)>(calls: seq<DelayedCall<W>>, now: int, i: nat, w: W)
    requires i < |calls|
    ensures var done := Filter(calls[..i], IsDue(now));
      RunAll(Filter(calls[..i + 1], IsDue(now)), w)
      == if calls[i].callTime <= now then calls[i].action(RunAll(done, w)) else RunAll(done, w)
  {
    var c := calls[i];
    var done := Filter(calls[..i], IsDue(now));
    assert calls[..i + 1] == calls[..i] + [c];
    FilterAppend(calls[..i], [c], IsDue(now));
    if c.callTime <= now {
      assert Filter([c], IsDue(now)) == [c];
      assert (done + [c])[..|done|] == done;
    } else {
      assert Filter([c], IsDue(now)) == [];
      assert done + [] == done;
    }
  }

  lemma ExecutedStep<W>(calls: seq<DelayedCall<W>>, now: int, executed: seq<int>, i: nat)
    requires i < |calls| && Increasing(executed) && ExecutedBelow(calls, now, executed, i)
    ensures var next := if calls[i].callTime <= now then executed + [i] else executed;
      Increasing(next) && ExecutedBelow(calls, now, next, i + 1)
  {
    if calls[i].callTime <= now {
      var next := executed + [i];
      forall a, b | 0 <= a < b < |next| ensures next[a] < next[b] {
        assert next[a] == executed[a];
        if b < |executed| {
          assert next[b] == executed[b];
        } else {
          assert executed[a] in executed;
        }
      }
    }
  }

  lemma NothingDeleted<W(!new)>(calls: seq<DelayedCall<W>>, now: int)
    ensures calls == calls[..|calls|] + Filter(calls[|calls|..], IsWaiting(now))
  {
    assert calls[|calls|..] == [];
    assert calls[..|calls|] + [] == calls;
  }

  /** No call is due strictly between two consecutive recorded positions;
      `m` is the later one, or the end of the list. */
  lemma GapWaiting<W>(calls: seq<DelayedCall<W>>, now: int, executed: seq<int>, k: nat, m: nat)
    requires Increasing(executed) && ExecutedBelow(calls, now, executed, |calls|)
    requires 0 < k <= |executed| && m == if k == |executed| then |calls| else executed[k]
    ensures var e := executed[k - 1];
      0 <= e < m <= |calls| && calls[e].callTime <= now
      && forall j :: e < j < m ==> calls[j].callTime > now
  {
    assert executed[k - 1] in executed;
    if k < |executed| {
      assert m in executed;
    }
  }

  /** Deleting the due call at `e`, after which nothing is due before `m`,
      extends the filtered tail from `m` down to `e`. */
  lemma DeleteStep<W(!new)>(calls: seq<DelayedCall<W>>, now: int, e: nat, m: nat, pending: seq<DelayedCall<W>>)
    requires e < m <= |calls| && calls[e].callTime <= now
    requires forall j :: e < j < m ==> calls[j].callTime > now
    requires pending == calls[..m] + Filter(calls[m..], IsWaiting(now))
    ensures e < |pending| && pending[..e] + pending[e + 1..] == calls[..e] + Filter(calls[e..], IsWaiting(now))
  {
    var gap := calls[e + 1..m];
    var rest := calls[m..];
    GapKept(calls, now, e, m);
    SplitAround(calls, e, m);
    FilterAppend([calls[e]] + gap, rest, IsWaiting(now));
    FilterAppend([calls[e]], gap, IsWaiting(now));
    DueDropped(calls[e], now);
    EmptyConcat(gap);
    DeleteBefore(calls, e, m, Filter(rest, IsWaiting(now)));
  }

  lemma GapKept<W(!new)>(calls: seq<DelayedCall<W>>, now: int, e: nat, m: nat)
    requires e < m <= |calls|
    requires forall j :: e < j < m ==> calls[j].callTime > now
    ensures Filter(calls[e + 1..m], IsWaiting(now)) == calls[e + 1..m]
  {
    var gap := calls[e + 1..m];
    forall j | 0 <= j < |gap| ensures gap[j].callTime > now {
      assert gap[j] == calls[e + 1 + j];
    }
    FilterAllWaiting(gap, now);
  }

  lemma DueDropped<W(!new)>(c: DelayedCall<W>, now: int)
    requires c.callTime <= now
    ensures Filter([c], IsWaiting(now)) == []
  {
    assert [c][1..] == [];
  }

  /** Nothing before the first recorded position is due. */
  lemma HeadWaiting<W>(calls: seq<DelayedCall<W>>, now: int, executed: seq<int>, m: nat)
    requires Increasing(executed) && ExecutedBelow(calls, now, executed, |calls|)
    requires m == if |executed| == 0 then |calls| else executed[0]
    ensures m <= |calls| && forall j :: 0 <= j < m ==> calls[j].callTime > now
  {
    if 0 < |executed| {
      assert m in executed;
    }
  }

  /** A waiting prefix followed by a filtered rest is the filtered whole. */
  lemma PrefixKept<W(!new)>(calls: seq<DelayedCall<W>>, now: int, m: nat)
    requires m <= |calls|
    requires forall j :: 0 <= j < m ==> calls[j].callTime > now
    ensures calls[..m] + Filter(calls[m..], IsWaiting(now)) == Filter(calls, IsWaiting(now))
  {
    FilterAllWaiting(calls[..m], now);
    SplitAt(calls, m);
    FilterAppend(calls[..m], calls[m..], IsWaiting(now));
  }

  /** A stretch of calls none of which is due is kept whole. */
  lemma {:induction false} FilterAllWaiting<W(!new)>(s: seq<DelayedCall<W>>, now: int)
    requires forall j :: 0 <= j < |s| ==> s[j].callTime > now
    ensures Filter(s, IsWaiting(now)) == s
    decreases |s|
  {
    if |s| > 0 {
      FilterAllWaiting(s[1..], now);
    }
  }
}
