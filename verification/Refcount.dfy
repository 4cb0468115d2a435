/** The lock-free saturating reference count, every interleaving of it, against the locked one. */
module Refcount {

  const MAX: nat := 0xffff_ffff

  datatype Op = Inc | Dec

  // ----- the locked counter

  /** The count after an operation under the lock, and whether it reports zero. */
  function Locked(count: nat, op: Op): (r: (nat, bool))
    requires count <= MAX && (op.Dec? ==> count > 0)
    ensures r.0 <= MAX
  {
    match op
    case Inc => (if count < MAX then count + 1 else count, false)
    case Dec =>
      var c := if count < MAX then count - 1 else count;
      (c, c == 0)
  }

  class LockedCounter {
    var count: nat

    constructor (count: nat)
      requires count <= MAX
      ensures this.count == count
    {
      this.count := count;
    }

    method Increment()
      requires count <= MAX
      modifies this
      ensures count == Locked(old(count), Inc).0
    {
      if count < MAX {
        count := count + 1;
      }
    }

    /** aborted stands for the end of the process. */
    method DecrementAndTestZero() returns (aborted: bool, zero: bool)
      requires count <= MAX
      modifies this
      ensures aborted <==> old(count) == 0
      ensures aborted ==> count == 0
      ensures !aborted ==> (count, zero) == Locked(old(count), Dec)
    {
      if count == 0 {
        return true, false;
      }
      if count < MAX {
        count := count - 1;
      }
      return false, count == 0;
    }
  }

  // ----- the lock-free counter, one atomic access at a time

  /**
   * A thread between operations; one that has entered an operation; one that has read the count and is
   * about to compare and exchange; one whose operation has taken effect but has not returned.
   */
  datatype Thread = Idle | Calling(op: Op) | Trying(op: Op, expected: nat) | Decided(op: Op, zero: bool)

  /** An operation that has taken effect. */
  datatype Entry = Entry(thread: nat, op: Op, zero: bool)

  /** owned counts the references each thread holds. */
  datatype World = World(count: nat, threads: seq<Thread>, owned: seq<int>, log: seq<Entry>, aborted: bool)

  /** One step of one thread; a compare-exchange may fail though the count is as expected. */
  datatype Step = Call(t: nat, op: Op)
                | Load(t: nat)
                | CompareExchange(t: nat, spurious: bool)
                | Return(t: nat)
                | HandOver(t: nat, to: nat)

  ghost predicate WellFormed(w: World) {
    |w.threads| == |w.owned| && w.count <= MAX
  }

  function Gain(op: Op): int {
    if op.Inc? then 1 else -1
  }

  /** The operation of thread t takes effect. */
  function Decide(w: World, t: nat, op: Op, count: nat, zero: bool): World
    requires WellFormed(w) && t < |w.threads|
  {
    w.(count := count, threads := w.threads[t := Decided(op, zero)], owned := w.owned[t := w.owned[t] + Gain(op)],
       log := w.log + [Entry(t, op, zero)])
  }

  /** Thread t has just read the count: a saturated count is left alone, and a zero one is not decremented. */
  function Read(w: World, t: nat, op: Op): World
    requires WellFormed(w) && t < |w.threads|
  {
    if op.Dec? && w.count == 0 then w.(aborted := true)
    else if w.count == MAX then Decide(w, t, op, w.count, false)
    else w.(threads := w.threads[t := Trying(op, w.count)])
  }

  function Next(w: World, s: Step): (w': World)
    requires WellFormed(w)
    ensures WellFormed(w') && |w'.threads| == |w.threads|
  {
    if w.aborted || s.t >= |w.threads| then w
    else
      var th := w.threads[s.t];
      match s
      case Call(t, op) => if th.Idle? then w.(threads := w.threads[t := Calling(op)]) else w
      case Load(t) => if th.Calling? then Read(w, t, th.op) else w
      case CompareExchange(t, spurious) =>
        if !th.Trying? then w
        else if spurious || w.count != th.expected then Read(w, t, th.op)
        else if th.op.Inc? then
          if th.expected < MAX then Decide(w, t, Inc, th.expected + 1, false) else w
        else if th.expected > 0 then Decide(w, t, Dec, th.expected - 1, th.expected - 1 == 0)
        else w
      case Return(t) => if th.Decided? then w.(threads := w.threads[t := Idle]) else w
      case HandOver(t, to) =>
        if to >= |w.threads| || to == t then w
        else w.(owned := w.owned[t := w.owned[t] - 1][to := w.owned[to] + 1])
  }

  ghost function After(start: World, run: seq<Step>): (w: World)
    requires WellFormed(start)
    ensures WellFormed(w) && |w.threads| == |start.threads|
  {
    if run == [] then start else Next(After(start, run[..|run| - 1]), run[|run| - 1])
  }

  /** Every thread is between operations. */
  ghost predicate Quiet(w: World) {
    && WellFormed(w) && w.log == [] && !w.aborted
    && forall t :: 0 <= t < |w.threads| ==> w.threads[t].Idle?
  }

  /** The operation under way that has not taken effect. */
  function Undecided(th: Thread): seq<Op> {
    match th
    case Calling(op) => [op]
    case Trying(op, _) => [op]
    case _ => []
  }

  function Unreturned(th: Thread): seq<(Op, bool)> {
    match th
    case Decided(op, zero) => [(op, zero)]
    case _ => []
  }

  /** In this step the operation of thread s.t takes effect. */
  ghost predicate Decides(w: World, s: Step, w': World)
    requires WellFormed(w)
  {
    && s.t < |w.threads| == |w'.threads| && w'.threads[s.t].Decided?
    && Undecided(w.threads[s.t]) == [w'.threads[s.t].op]
    && w' == Decide(w, s.t, w'.threads[s.t].op, w'.count, w'.threads[s.t].zero)
  }

  ghost predicate IsCall(w: World, s: Step, t: nat)
    requires t < |w.threads|
  {
    s.Call? && s.t == t && w.threads[t].Idle? && !w.aborted
  }

  ghost predicate IsReturn(w: World, s: Step, t: nat)
    requires t < |w.threads|
  {
    s.Return? && s.t == t && w.threads[t].Decided? && !w.aborted
  }

  ghost predicate IsHandOver(w: World, s: Step)
    requires WellFormed(w)
  {
    s.HandOver? && s.t < |w.threads| && s.to < |w.threads| && s.to != s.t && !w.aborted
  }

  /** In this step no operation takes effect. */
  ghost predicate Silent(w: World, s: Step, w': World)
    requires WellFormed(w) && |w'.threads| == |w.threads|
  {
    && w'.log == w.log && w'.count == w.count
    && w'.owned == (if IsHandOver(w, s) then w.owned[s.t := w.owned[s.t] - 1][s.to := w.owned[s.to] + 1] else w.owned)
    && forall t :: 0 <= t < |w.threads| ==> SilentFor(w, s, w', t)
  }

  ghost predicate SilentFor(w: World, s: Step, w': World, t: nat)
    requires t < |w.threads| == |w'.threads|
  {
    && Undecided(w'.threads[t]) == (if IsCall(w, s, t) then [s.op] else Undecided(w.threads[t]))
    && Unreturned(w'.threads[t]) == if IsReturn(w, s, t) then [] else Unreturned(w.threads[t])
  }

  lemma NextShape(w: World, s: Step)
    requires WellFormed(w)
    ensures Decides(w, s, Next(w, s)) || Silent(w, s, Next(w, s))
  {
    var w' := Next(w, s);
    if w'.log == w.log {
      forall t | 0 <= t < |w.threads|
        ensures SilentFor(w, s, w', t)
      {
      }
    }
  }

  // ----- refinement: the operations, in the order they take effect, are locked operations

  /** The locked count after these operations; None if one of them would abort or report otherwise. */
  function Replay(count: nat, log: seq<Entry>): (c: int)
    requires count <= MAX
    ensures c <= MAX
  {
    if log == [] then count
    else
      var c, e := Replay(count, log[..|log| - 1]), log[|log| - 1];
      if c < 0 || (e.op.Dec? && c == 0) then -1
      else
        var (c', zero) := Locked(c, e.op);
        if zero == e.zero then c' else -1
  }

  /** A thread's expectation is one it can act on. */
  ghost predicate Expectable(w: World) {
    forall t :: 0 <= t < |w.threads| && w.threads[t].Trying? ==>
      w.threads[t].expected < MAX && (w.threads[t].op.Dec? ==> w.threads[t].expected > 0)
  }

  lemma NextRefines(count: nat, w: World, s: Step)
    requires count <= MAX && WellFormed(w) && Expectable(w) && Replay(count, w.log) == w.count
    requires w.aborted ==> w.count == 0
    ensures var w' := Next(w, s);
            Expectable(w') && Replay(count, w'.log) == w'.count && (w'.aborted ==> w'.count == 0)
  {
    hide Replay;
    NextExpectable(w, s);
    var w' := Next(w, s);
    hide Expectable;
    if |w'.log| == |w.log| + 1 {
      ReplayOneMore(count, w.log, w'.log[|w.log|]);
    }
  }

  lemma NextExpectable(w: World, s: Step)
    requires WellFormed(w) && Expectable(w)
    ensures Expectable(Next(w, s))
  {
  }

  lemma ReplayOneMore(count: nat, log: seq<Entry>, e: Entry)
    requires count <= MAX
    ensures var c := Replay(count, log);
            Replay(count, log + [e]) ==
            if c < 0 || (e.op.Dec? && c == 0) || Locked(c, e.op).1 != e.zero then -1 else Locked(c, e.op).0
  {
    assert (log + [e])[..|log|] == log;
  }

  /**
   * Under every interleaving, with any failures of compare-exchange, the operations that have taken effect
   * are a run of the locked counter with the same results and the same count; and the process is aborted
   * only at a zero count, as the locked counter would.
   */
  lemma {:induction false} RefinesLocked(start: World, run: seq<Step>)
    requires Quiet(start)
    ensures var w := After(start, run);
            Expectable(w) && Replay(start.count, w.log) == w.count && (w.aborted ==> w.count == 0)
  {
    if run != [] {
      RefinesLocked(start, run[..|run| - 1]);
      NextRefines(start.count, After(start, run[..|run| - 1]), run[|run| - 1]);
    }
  }

  // ----- each operation takes effect once, between its call and its return

  ghost function OpsCalled(start: World, run: seq<Step>, t: nat): seq<Op>
    requires WellFormed(start) && t < |start.threads|
  {
    if run == [] then []
    else
      var before, s := run[..|run| - 1], run[|run| - 1];
      var w := After(start, before);
      OpsCalled(start, before, t) + if IsCall(w, s, t) then [s.op] else []
  }

  ghost function ResultsReturned(start: World, run: seq<Step>, t: nat): seq<(Op, bool)>
    requires WellFormed(start) && t < |start.threads|
  {
    if run == [] then []
    else
      var before, s := run[..|run| - 1], run[|run| - 1];
      var w := After(start, before);
      ResultsReturned(start, before, t) + if IsReturn(w, s, t) then Unreturned(w.threads[t]) else []
  }

  /** The operations of thread t that have taken effect. */
  function EffectsOf(log: seq<Entry>, t: nat): seq<(Op, bool)> {
    if log == [] then []
    else
      var e := log[|log| - 1];
      EffectsOf(log[..|log| - 1], t) + if e.thread == t then [(e.op, e.zero)] else []
  }

  function OpsOf(effects: seq<(Op, bool)>): (s: seq<Op>)
    ensures |s| == |effects|
  {
    seq(|effects|, i requires 0 <= i < |effects| => effects[i].0)
  }

  lemma EffectsStep(w: World, s: Step, t: nat)
    requires WellFormed(w) && t < |w.threads|
    ensures var w' := Next(w, s);
            if Decides(w, s, w') && s.t == t
            then EffectsOf(w'.log, t) == EffectsOf(w.log, t) + Unreturned(w'.threads[t])
            else
              && EffectsOf(w'.log, t) == EffectsOf(w.log, t)
              && SilentFor(w, s, w', t)
  {
    NextShape(w, s);
    var w' := Next(w, s);
    hide Next;
    if Decides(w, s, w') {
      var e := w'.log[|w.log|];
      assert w'.log[..|w.log|] == w.log;
    }
  }

  /** What thread t has called has taken effect, but for an operation under way, and so far as known returned. */
  ghost predicate Once(w: World, t: nat, called: seq<Op>, returned: seq<(Op, bool)>)
    requires t < |w.threads|
  {
    && EffectsOf(w.log, t) == returned + Unreturned(w.threads[t])
    && OpsOf(EffectsOf(w.log, t)) + Undecided(w.threads[t]) == called
  }

  lemma OnceDecidesStep(w: World, s: Step, called: seq<Op>, returned: seq<(Op, bool)>)
    requires WellFormed(w) && Decides(w, s, Next(w, s)) && Once(w, s.t, called, returned)
    ensures Once(Next(w, s), s.t, called, returned)
    ensures !IsCall(w, s, s.t) && !IsReturn(w, s, s.t)
  {
    hide EffectsOf, OpsOf, Next;
    EffectsStep(w, s, s.t);
    var th, th', effects := w.threads[s.t], Next(w, s).threads[s.t], EffectsOf(w.log, s.t);
    assert th'.Decided? && Undecided(th) == [th'.op] && Undecided(th') == [] && Unreturned(th) == [];
    assert returned + [] == returned;
    OpsOfOneMore(effects, th'.op, th'.zero);
    assert called + [] == called;
  }

  lemma OpsOfOneMore(effects: seq<(Op, bool)>, op: Op, zero: bool)
    ensures OpsOf(effects + [(op, zero)]) == OpsOf(effects) + [op]
  {
  }

  lemma OnceStep(w: World, s: Step, t: nat, called: seq<Op>, returned: seq<(Op, bool)>)
    requires WellFormed(w) && t < |w.threads| && Once(w, t, called, returned)
    ensures Once(Next(w, s), t, called + (if IsCall(w, s, t) then [s.op] else []),
                 returned + if IsReturn(w, s, t) then Unreturned(w.threads[t]) else [])
  {
    EffectsStep(w, s, t);
    var th, th' := w.threads[t], Next(w, s).threads[t];
    hide Next, EffectsOf, Decide, OpsOf;
    assert called + [] == called && returned + [] == returned;
    if Decides(w, s, Next(w, s)) && s.t == t {
      OnceDecidesStep(w, s, called, returned);
    } else if IsCall(w, s, t) {
      assert Undecided(th) == [] && Undecided(th') == [s.op] && Unreturned(th') == Unreturned(th) == [];
    } else if IsReturn(w, s, t) {
      assert Undecided(th') == Undecided(th) == [] && Unreturned(th') == [];
      assert returned + Unreturned(th) + [] == returned + Unreturned(th);
    }
  }

  lemma {:induction false} EachOperationOnce(start: World, run: seq<Step>, t: nat)
    requires Quiet(start) && t < |start.threads|
    ensures Once(After(start, run), t, OpsCalled(start, run, t), ResultsReturned(start, run, t))
  {
    if run != [] {
      var before, s := run[..|run| - 1], run[|run| - 1];
      EachOperationOnce(start, before, t);
      OnceStep(After(start, before), s, t, OpsCalled(start, before, t), ResultsReturned(start, before, t));
      hide Next, Once, IsCall, IsReturn, Unreturned;
    }
  }

  // ----- counting

  function Net(log: seq<Entry>): int {
    if log == [] then 0 else Net(log[..|log| - 1]) + Gain(log[|log| - 1].op)
  }

  /** A saturated count stays so; any other is the first plus increments less decrements. */
  lemma {:induction false} CountsUnlessSaturated(count: nat, log: seq<Entry>)
    requires count <= MAX && Replay(count, log) >= 0
    ensures Replay(count, log) < MAX ==> Replay(count, log) == count + Net(log)
    ensures log != [] && Replay(count, log[..|log| - 1]) == MAX ==> Replay(count, log) == MAX && !log[|log| - 1].zero
  {
    if log != [] {
      CountsUnlessSaturated(count, log[..|log| - 1]);
    }
  }

  // ----- operations made by reference holders

  function Sum(s: seq<int>): int {
    if s == [] then 0 else Sum(s[..|s| - 1]) + s[|s| - 1]
  }

  lemma {:induction false} SumUpdate(s: seq<int>, i: nat, x: int)
    requires i < |s|
    ensures Sum(s[i := x]) == Sum(s) - s[i] + x
  {
    var n := |s| - 1;
    if i < n {
      SumUpdate(s[..n], i, x);
      assert s[i := x][..n] == s[..n][i := x];
    } else {
      assert s[i := x][..n] == s[..n];
    }
  }

  lemma {:induction false} SumAtLeast(s: seq<int>, i: nat)
    requires i < |s| && forall j :: 0 <= j < |s| ==> s[j] >= 0
    ensures Sum(s) >= s[i]
  {
    var n := |s| - 1;
    if i < n {
      SumAtLeast(s[..n], i);
    } else if n > 0 {
      SumAtLeast(s[..n], 0);
    }
  }

  /** The thread needs one of its references until its operation has taken effect. */
  function Needs(th: Thread): int {
    if Undecided(th) != [] then 1 else 0
  }

  /** Only a holder calls an operation, and a reference in use is not handed over. */
  ghost predicate ByHolder(w: World, s: Step)
    requires WellFormed(w)
  {
    s.t < |w.threads| ==>
      match s
      case Call(t, _) => w.owned[t] >= 1
      case HandOver(t, _) => w.owned[t] >= 1 + Needs(w.threads[t])
      case _ => true
  }

  ghost predicate RunByHolders(start: World, run: seq<Step>)
    requires WellFormed(start)
  {
    forall i :: 0 <= i < |run| ==> ByHolder(After(start, run[..i]), run[i])
  }

  /** Every thread holds what it needs, and the references held are those counted. */
  ghost predicate Owned(w: World) {
    && |w.threads| == |w.owned|
    && (forall t :: 0 <= t < |w.threads| ==> w.owned[t] >= Needs(w.threads[t]))
  }

  lemma NextOwned(w: World, s: Step)
    requires WellFormed(w) && Owned(w) && Expectable(w) && ByHolder(w, s)
    requires w.count < MAX ==> w.count == Sum(w.owned)
    ensures var w' := Next(w, s);
            && Owned(w')
            && Sum(w'.owned) == Sum(w.owned) + Net(w'.log) - Net(w.log)
            && (w'.log != w.log ==> Sum(w.owned) >= 1)
  {
    NextShape(w, s);
    var w' := Next(w, s);
    if Decides(w, s, w') {
      DecidesOwned(w, s, w');
    } else {
      SilentOwned(w, s, w');
    }
  }

  lemma DecidesOwned(w: World, s: Step, w': World)
    requires WellFormed(w) && Owned(w) && Decides(w, s, w')
    ensures Owned(w') && Sum(w'.owned) == Sum(w.owned) + Net(w'.log) - Net(w.log) && Sum(w.owned) >= 1
  {
    hide Sum;
    assert w.owned[s.t] >= Needs(w.threads[s.t]) == 1;
    SumAtLeast(w.owned, s.t);
    SumUpdate(w.owned, s.t, w'.owned[s.t]);
    assert w'.log[..|w.log|] == w.log;
  }

  lemma SilentOwned(w: World, s: Step, w': World)
    requires WellFormed(w) && Owned(w) && ByHolder(w, s) && |w'.threads| == |w.threads| && Silent(w, s, w')
    ensures Owned(w') && Sum(w'.owned) == Sum(w.owned) && w'.log == w.log
  {
    hide Sum;
    if IsHandOver(w, s) {
      var given := w.owned[s.t := w.owned[s.t] - 1];
      SumUpdate(w.owned, s.t, w.owned[s.t] - 1);
      SumUpdate(given, s.to, w.owned[s.to] + 1);
    }
    forall t | 0 <= t < |w.threads|
      ensures w'.owned[t] >= Needs(w'.threads[t])
    {
      assert w.owned[t] >= Needs(w.threads[t]) && SilentFor(w, s, w', t);
    }
  }

  /** Nobody finds the count at zero. */
  lemma NextDoesNotAbort(w: World, s: Step)
    requires WellFormed(w) && Owned(w) && Expectable(w) && !w.aborted
    requires w.count < MAX ==> w.count == Sum(w.owned)
    ensures !Next(w, s).aborted
  {
    if s.t < |w.threads| && Needs(w.threads[s.t]) == 1 {
      SumAtLeast(w.owned, s.t);
    }
  }

  /** All references are accounted for by the threads that hold them. */
  ghost predicate Start(w: World) {
    Quiet(w) && Owned(w) && Sum(w.owned) == w.count < MAX
  }

  /**
   * When only holders operate: the count, unless it has saturated, is the number of references held, and
   * no decrement finds it at zero.
   */
  lemma {:induction false} CountsReferences(start: World, run: seq<Step>)
    requires Start(start) && RunByHolders(start, run)
    ensures var w := After(start, run);
            && Owned(w) && !w.aborted && Sum(w.owned) == start.count + Net(w.log)
            && (w.count < MAX ==> w.count == Sum(w.owned))
  {
    RefinesLocked(start, run);
    CountsUnlessSaturated(start.count, After(start, run).log);
    if run != [] {
      var before := run[..|run| - 1];
      HoldersBefore(start, run);
      CountsReferences(start, before);
      RefinesLocked(start, before);
      NextOwned(After(start, before), run[|run| - 1]);
      NextDoesNotAbort(After(start, before), run[|run| - 1]);
    }
  }

  lemma HoldersBefore(start: World, run: seq<Step>)
    requires WellFormed(start) && RunByHolders(start, run) && run != []
    ensures RunByHolders(start, run[..|run| - 1])
    ensures ByHolder(After(start, run[..|run| - 1]), run[|run| - 1])
  {
    hide ByHolder, After;
    var before := run[..|run| - 1];
    forall i | 0 <= i < |before|
      ensures ByHolder(After(start, before[..i]), before[i])
    {
      assert before[..i] == run[..i];
      assert ByHolder(After(start, run[..i]), run[i]);
    }
  }

  /** Only the last operation to take effect has reported zero. */
  ghost predicate ZeroOnlyLast(log: seq<Entry>) {
    forall i :: 0 <= i < |log| && log[i].zero ==> i == |log| - 1
  }

  /** Zero has been reported, by the last operation, exactly when the count is zero. */
  ghost predicate Released(w: World) {
    && ZeroOnlyLast(w.log)
    && (w.log != [] ==> (w.log[|w.log| - 1].zero <==> w.count == 0))
  }

  lemma ReleasedStep(count: nat, w: World, s: Step)
    requires count <= MAX && WellFormed(w) && WellFormed(Next(w, s)) && Released(w)
    requires Replay(count, w.log) == w.count && Replay(count, Next(w, s).log) == Next(w, s).count
    requires Next(w, s).log != w.log ==> w.count > 0
    ensures Released(Next(w, s))
  {
  }

  /**
   * At most one decrement ever reports zero, no operation takes effect after it, and it reports zero
   * exactly when no reference is left; unless the count has saturated.
   */
  lemma {:induction false} ReleasedOnce(start: World, run: seq<Step>)
    requires Start(start) && RunByHolders(start, run)
    ensures var w := After(start, run);
            Released(w) && (w.count < MAX ==> (w.count == 0 <==> Sum(w.owned) == 0))
  {
    CountsReferences(start, run);
    if run != [] {
      var before, s := run[..|run| - 1], run[|run| - 1];
      HoldersBefore(start, run);
      ReleasedOnce(start, before);
      StepCounts(start, before, s);
      hide Next, Released, Owned, Expectable, RunByHolders, ByHolder, Sum, Replay, Start;
      RefinesLocked(start, before);
      RefinesLocked(start, run);
      ReleasedStep(start.count, After(start, before), s);
    }
  }

  /** An operation takes effect only on a count that is not zero. */
  lemma StepCounts(start: World, before: seq<Step>, s: Step)
    requires Start(start) && RunByHolders(start, before) && ByHolder(After(start, before), s)
    ensures var w := After(start, before); Next(w, s).log != w.log ==> w.count > 0
  {
    CountsReferences(start, before);
    RefinesLocked(start, before);
    NextOwned(After(start, before), s);
  }
}
