/**
 The pool of JavaScript VMs (pkg/vm/vmpool/vmpool.go): a semaphore that counts, and a stack
 that stores. `Get` acquires and then pops, `Put` pushes and then releases, so a schedule can
 interleave other callers between the two halves of either. Every holder is assumed to put
 its VM back once.
 */
module VmPool {
  import opened Prelude

  /** A VM is an identity; what it executes is not part of the model. */
  type VM = nat

  // ---------------------------------------------------------------- the code

  class Stack {
    var data: seq<VM>

    constructor ()
      ensures data == []
    {
      data := [];
    }

    method Push(v: VM)
      modifies this
      ensures data == old(data) + [v]
    {
      data := data + [v];
    }

    method Pop() returns (r: Option<VM>)
      modifies this
      ensures if old(data) == [] then r.None? && data == [] else r.Some? && old(data) == data + [r.value]
    {
      if |data| == 0 {
        return None;
      }
      var l := |data|;
      r := Some(data[l - 1]);
      data := data[..l - 1];
    }
  }

  /** How a call of `Get` stands: it returned a VM or nil, or waits for a permit. */
  datatype Got = Took(vm: VM) | Nothing | Waits

  class Pool {
    const stack: Stack
    /** Free permits of the semaphore. */
    var permits: int

    constructor (s: Stack, size: int)
      ensures stack == s && permits == size
    {
      stack, permits := s, size;
    }

    /** `NewVMPool`: as many VMs as permits, unless one cannot be created. */
    static method NewVMPool(size: int, newVM: nat -> Option<VM>) returns (pool: Option<Pool>)
      ensures pool.Some? <==> forall i :: 0 <= i < size ==> newVM(i).Some?
      ensures pool.Some? ==>
                && fresh(pool.value) && pool.value.permits == size
                && |pool.value.stack.data| == (if size < 0 then 0 else size)
                && forall i :: 0 <= i < |pool.value.stack.data| ==> newVM(i) == Some(pool.value.stack.data[i])
    {
      var stack := new Stack();
      var i := 0;
      while i < size
        invariant 0 <= i && (i <= size || i == 0)
        invariant |stack.data| == i && forall k :: 0 <= k < i ==> newVM(k) == Some(stack.data[k])
      {
        var iso := newVM(i);
        if iso.None? {
          return None;
        }
        stack.Push(iso.value);
        i := i + 1;
      }
      var p := new Pool(stack, size);
      pool := Some(p);
    }

    /** The second half of `Get`; `None` is where the source panics. */
    method PopVM() returns (vm: Option<VM>)
      modifies stack
      ensures if old(stack.data) == [] then vm.None? && stack.data == []
              else vm.Some? && old(stack.data) == stack.data + [vm.value]
    {
      vm := stack.Pop();
    }

    /**
     `Get` with nobody in between. A free permit is taken even when the context is already done;
     without one the call waits, and comes back with nothing if its context ends first.
     */
    method Get(cancelled: bool) returns (r: Got)
      requires permits <= |stack.data|
      modifies this, stack
      ensures r.Took? <==> old(permits) > 0
      ensures r.Took? ==> permits == old(permits) - 1 && old(stack.data) == stack.data + [r.vm]
      ensures !r.Took? ==>
                r == (if cancelled then Nothing else Waits) && permits == old(permits) && stack.data == old(stack.data)
    {
      if permits > 0 {
        permits := permits - 1;
        var vm := PopVM();
        r := Took(vm.value);
      } else {
        r := if cancelled then Nothing else Waits;
      }
    }

    /** `Put` with nobody in between: a VM that cannot be reset goes, and its permit with it. */
    method Put(vm: Option<VM>, recreated: bool) returns (ok: bool)
      modifies this, stack
      ensures ok <==> vm.None? || recreated
      ensures if vm.Some? && recreated then permits == old(permits) + 1 && stack.data == old(stack.data) + [vm.value]
              else permits == old(permits) && stack.data == old(stack.data)
    {
      if vm.None? {
        return true;
      }
      if !recreated {
        return false;
      }
      stack.Push(vm.value);
      permits := permits + 1;
      ok := true;
    }
  }

  // ---------------------------------------------------------------- interleaved callers

  datatype Phase =
    | Outside
    /** Has a permit, has not popped. */
    | Acquired
    | Holding(vm: VM)
    /** Inside `Put`, context recreated. */
    | Reset(vm: VM)
    /** Pushed, permit not yet released. */
    | Pushed
    /** Popped nil. */
    | Panicked

  datatype System = System(stack: seq<VM>, permits: nat, callers: seq<Phase>, lost: seq<VM>)

  datatype Step = Enter | Acquire(c: nat) | Pop(c: nat) | Recreate(c: nat, ok: bool) | Push(c: nat) | Release(c: nat)

  predicate In(s: System, c: nat) {
    c < |s.callers|
  }

  /** A step that is not possible leaves the system alone. */
  function Do(s: System, step: Step): System {
    match step
    case Enter => s.(callers := s.callers + [Outside])
    case Acquire(c) =>
      if In(s, c) && s.callers[c].Outside? && s.permits > 0
      then s.(permits := s.permits - 1, callers := s.callers[c := Acquired])
      else s
    case Pop(c) =>
      if In(s, c) && s.callers[c].Acquired? then
        if s.stack == [] then s.(callers := s.callers[c := Panicked])
        else s.(stack := s.stack[..|s.stack| - 1], callers := s.callers[c := Holding(s.stack[|s.stack| - 1])])
      else s
    case Recreate(c, ok) =>
      if In(s, c) && s.callers[c].Holding? then
        if ok then s.(callers := s.callers[c := Reset(s.callers[c].vm)])
        else s.(callers := s.callers[c := Outside], lost := s.lost + [s.callers[c].vm])
      else s
    case Push(c) =>
      if In(s, c) && s.callers[c].Reset?
      then s.(stack := s.stack + [s.callers[c].vm], callers := s.callers[c := Pushed])
      else s
    case Release(c) =>
      if In(s, c) && s.callers[c].Pushed? then s.(permits := s.permits + 1, callers := s.callers[c := Outside])
      else s
  }

  function Run(s: System, steps: seq<Step>): System
    decreases |steps|
  {
    if steps == [] then s else Run(Do(s, steps[0]), steps[1..])
  }

  /** What `NewVMPool` hands out. */
  function Initial(vms: seq<VM>): System {
    System(vms, |vms|, [], [])
  }

  // ---------------------------------------------------------------- callers left to themselves

  /** `Get` with nobody in between takes a permit and the top of the stack, as `Pool.Get` does. */
  lemma UndisturbedGet(s: System, c: nat)
    requires In(s, c) && s.callers[c].Outside? && s.permits > 0 && s.stack != []
    ensures var n := Do(Do(s, Acquire(c)), Pop(c));
            && n.permits == s.permits - 1 && n.lost == s.lost
            && exists vm :: s.stack == n.stack + [vm] && n.callers == s.callers[c := Holding(vm)]
  {
    var vm := s.stack[|s.stack| - 1];
    assert s.stack == s.stack[..|s.stack| - 1] + [vm];
    assert Do(Do(s, Acquire(c)), Pop(c)).callers == s.callers[c := Holding(vm)];
  }

  /** `Put` with nobody in between: VM and permit come back together, or a failed reset keeps both. */
  lemma UndisturbedPut(s: System, c: nat, ok: bool)
    requires In(s, c) && s.callers[c].Holding?
    ensures var n := Do(Do(Do(s, Recreate(c, ok)), Push(c)), Release(c));
            && n.callers == s.callers[c := Outside]
            && if ok then n.stack == s.stack + [s.callers[c].vm] && n.permits == s.permits + 1 && n.lost == s.lost
               else n.stack == s.stack && n.permits == s.permits && n.lost == s.lost + [s.callers[c].vm]
  {
  }

  /** The resets that fail in a run. */
  function FailedResets(s: System, steps: seq<Step>): nat
    decreases |steps|
  {
    if steps == [] then 0
    else
      var step := steps[0];
      (if step.Recreate? && !step.ok && In(s, step.c) && s.callers[step.c].Holding? then 1 else 0) +
      FailedResets(Do(s, step), steps[1..])
  }

  /** Exactly the failed resets lose a VM. */
  lemma {:induction false} FailedResetsLose(s: System, steps: seq<Step>)
    ensures |Run(s, steps).lost| == |s.lost| + FailedResets(s, steps)
    decreases |steps|
  {
    if steps != [] {
      FailedResetsLose(Do(s, steps[0]), steps[1..]);
    }
  }

  // ---------------------------------------------------------------- accounting

  predicate Holds(p: Phase) {
    p.Holding? || p.Reset?
  }

  /** How many callers hold `v`. */
  function Copies(cs: seq<Phase>, v: VM): nat {
    if cs == [] then 0 else (if Holds(cs[0]) && cs[0].vm == v then 1 else 0) + Copies(cs[1..], v)
  }

  function Holders(cs: seq<Phase>): nat {
    if cs == [] then 0 else (if Holds(cs[0]) then 1 else 0) + Holders(cs[1..])
  }

  /** Acquired but not popped, or pushed but not released: the stack is one ahead of the permits. */
  predicate Owes(p: Phase) {
    p.Acquired? || p.Pushed?
  }

  function Owed(cs: seq<Phase>): nat {
    if cs == [] then 0 else (if Owes(cs[0]) then 1 else 0) + Owed(cs[1..])
  }

  lemma {:induction false} UpdateCopies(cs: seq<Phase>, c: nat, p: Phase, v: VM)
    requires c < |cs|
    ensures Copies(cs[c := p], v) + Copies([cs[c]], v) == Copies(cs, v) + Copies([p], v)
  {
    if c == 0 {
      assert cs[c := p][1..] == cs[1..];
    } else {
      assert cs[c := p][1..] == cs[1..][c - 1 := p];
      UpdateCopies(cs[1..], c - 1, p, v);
    }
  }

  lemma {:induction false} UpdateCounts(cs: seq<Phase>, c: nat, p: Phase)
    requires c < |cs|
    ensures Holders(cs[c := p]) + (if Holds(cs[c]) then 1 else 0) == Holders(cs) + (if Holds(p) then 1 else 0)
    ensures Owed(cs[c := p]) + (if Owes(cs[c]) then 1 else 0) == Owed(cs) + (if Owes(p) then 1 else 0)
  {
    if c == 0 {
      assert cs[c := p][1..] == cs[1..];
    } else {
      assert cs[c := p][1..] == cs[1..][c - 1 := p];
      UpdateCounts(cs[1..], c - 1, p);
    }
  }

  lemma {:induction false} Append(cs: seq<Phase>)
    ensures forall v :: Copies(cs + [Outside], v) == Copies(cs, v)
    ensures Holders(cs + [Outside]) == Holders(cs) && Owed(cs + [Outside]) == Owed(cs)
  {
    if cs == [] {
      assert cs + [Outside] == [Outside];
    } else {
      assert (cs + [Outside])[1..] == cs[1..] + [Outside];
      Append(cs[1..]);
    }
  }

  lemma {:induction false} Member(cs: seq<Phase>, c: nat)
    requires c < |cs|
    ensures Owed(cs) >= if Owes(cs[c]) then 1 else 0
    ensures Holds(cs[c]) ==> Copies(cs, cs[c].vm) > 0
  {
    if c > 0 {
      Member(cs[1..], c - 1);
    }
  }

  /**
   Every VM of the pool is on the stack, held by a caller or lost, and as often as it was there at
   first.
   */
  predicate Accounted(s: System, vms: seq<VM>, v: VM) {
    multiset(s.stack)[v] + Copies(s.callers, v) + multiset(s.lost)[v] == multiset(vms)[v]
  }

  /**
   The stack is ahead of the permits by the calls that are between their two halves; every
   permit is free, owed, behind a held VM, or lost with one; nobody panicked.
   */
  ghost predicate Inv(s: System, vms: seq<VM>) {
    && |s.stack| == s.permits + Owed(s.callers)
    && |s.stack| + Holders(s.callers) + |s.lost| == |vms|
    && (forall v :: Accounted(s, vms, v))
    && forall c :: 0 <= c < |s.callers| ==> !s.callers[c].Panicked?
  }

  /** Popping the last element and appending one, seen from one VM. */
  lemma CountLast(a: seq<VM>, x: VM, v: VM)
    ensures multiset(a + [x])[v] == multiset(a)[v] + if v == x then 1 else 0
  {
  }

  lemma PopAccounts(s: System, c: nat, vms: seq<VM>, v: VM)
    requires Accounted(s, vms, v) && In(s, c) && s.callers[c].Acquired?
    ensures Accounted(Do(s, Pop(c)), vms, v)
  {
    UpdateCopies(s.callers, c, Do(s, Pop(c)).callers[c], v);
    if s.stack != [] {
      var x := s.stack[|s.stack| - 1];
      assert s.stack == s.stack[..|s.stack| - 1] + [x];
      CountLast(s.stack[..|s.stack| - 1], x, v);
    }
  }

  lemma PutAccounts(s: System, step: Step, vms: seq<VM>, v: VM)
    requires Accounted(s, vms, v) && (step.Recreate? || step.Push?) && In(s, step.c) && Holds(s.callers[step.c])
    ensures Accounted(Do(s, step), vms, v)
  {
    var x := s.callers[step.c].vm;
    UpdateCopies(s.callers, step.c, Do(s, step).callers[step.c], v);
    CountLast(s.stack, x, v);
    CountLast(s.lost, x, v);
  }

  lemma StepAccounts(s: System, step: Step, vms: seq<VM>, v: VM)
    requires Accounted(s, vms, v)
    ensures Accounted(Do(s, step), vms, v)
  {
    match step
    case Enter => Append(s.callers);
    case Acquire(c) => if In(s, c) { UpdateCopies(s.callers, c, Acquired, v); }
    case Pop(c) => if In(s, c) && s.callers[c].Acquired? { PopAccounts(s, c, vms, v); }
    case Recreate(c, _) => if In(s, c) && Holds(s.callers[c]) { PutAccounts(s, step, vms, v); }
    case Push(c) => if In(s, c) && Holds(s.callers[c]) { PutAccounts(s, step, vms, v); }
    case Release(c) => if In(s, c) { UpdateCopies(s.callers, c, Outside, v); }
  }

  lemma StepCounts(s: System, step: Step, vms: seq<VM>)
    requires Inv(s, vms)
    ensures var n := Do(s, step);
            && |n.stack| == n.permits + Owed(n.callers)
            && |n.stack| + Holders(n.callers) + |n.lost| == |vms|
            && forall c :: 0 <= c < |n.callers| ==> !n.callers[c].Panicked?
  {
    hide Holders, Owed, Copies;
    match step
    case Enter => Append(s.callers);
    case Acquire(c) => if In(s, c) { UpdateCounts(s.callers, c, Acquired); }
    case Pop(c) =>
      if In(s, c) {
        Member(s.callers, c);
        UpdateCounts(s.callers, c, Do(s, step).callers[c]);
      }
    case Recreate(c, _) => if In(s, c) { UpdateCounts(s.callers, c, Do(s, step).callers[c]); }
    case Push(c) => if In(s, c) { UpdateCounts(s.callers, c, Pushed); }
    case Release(c) => if In(s, c) { UpdateCounts(s.callers, c, Outside); }
  }

  lemma StepKeepsInv(s: System, step: Step, vms: seq<VM>)
    requires Inv(s, vms)
    ensures Inv(Do(s, step), vms)
  {
    StepCounts(s, step, vms);
    forall v ensures Accounted(Do(s, step), vms, v) {
      assert Accounted(s, vms, v);
      StepAccounts(s, step, vms, v);
    }
  }

  lemma {:induction false} RunKeepsInv(s: System, steps: seq<Step>, vms: seq<VM>)
    requires Inv(s, vms)
    ensures Inv(Run(s, steps), vms)
    decreases |steps|
  {
    if steps != [] {
      StepKeepsInv(s, steps[0], vms);
      RunKeepsInv(Do(s, steps[0]), steps[1..], vms);
    }
  }

  // ---------------------------------------------------------------- theorems about every schedule

  /** An acquired caller always finds a VM: the panic in `Get` is out of reach. */
  lemma NobodyPanics(vms: seq<VM>, steps: seq<Step>, c: nat)
    requires c < |Run(Initial(vms), steps).callers|
    ensures var s := Run(Initial(vms), steps);
            !s.callers[c].Panicked? && (s.callers[c].Acquired? ==> s.stack != [])
  {
    RunKeepsInv(Initial(vms), steps, vms);
    Member(Run(Initial(vms), steps).callers, c);
  }

  predicate Distinct(vms: seq<VM>) {
    forall i, j :: 0 <= i < j < |vms| ==> vms[i] != vms[j]
  }

  lemma {:induction false} DistinctCounts(vms: seq<VM>, v: VM)
    requires Distinct(vms)
    ensures multiset(vms)[v] <= 1
  {
    if vms != [] {
      assert vms == [vms[0]] + vms[1..];
      DistinctCounts(vms[1..], v);
      assert vms[0] !in vms[1..];
    }
  }

  lemma {:induction false} TwoHolders(cs: seq<Phase>, b: nat, c: nat)
    requires b < c < |cs| && Holds(cs[b]) && Holds(cs[c]) && cs[b].vm == cs[c].vm
    ensures Copies(cs, cs[c].vm) >= 2
  {
    if b == 0 {
      Member(cs[1..], c - 1);
    } else {
      TwoHolders(cs[1..], b - 1, c - 1);
    }
  }

  /** No VM is in two places: a held one is held by nobody else, not on the stack and not lost. */
  lemma VMsAreExclusive(vms: seq<VM>, steps: seq<Step>, c: nat)
    requires Distinct(vms) && c < |Run(Initial(vms), steps).callers| && Holds(Run(Initial(vms), steps).callers[c])
    ensures var s := Run(Initial(vms), steps);
            var v := s.callers[c].vm;
            && v in vms && v !in s.stack && v !in s.lost
            && forall b :: 0 <= b < |s.callers| && b != c && Holds(s.callers[b]) ==> s.callers[b].vm != v
  {
    var s := Run(Initial(vms), steps);
    var v := s.callers[c].vm;
    RunKeepsInv(Initial(vms), steps, vms);
    assert Accounted(s, vms, v);
    Member(s.callers, c);
    DistinctCounts(vms, v);
    assert multiset(s.stack)[v] == 0 && multiset(s.lost)[v] == 0;
    forall b | 0 <= b < |s.callers| && b != c && Holds(s.callers[b]) ensures s.callers[b].vm != v {
      if s.callers[b].vm == v {
        TwoHolders(s.callers, if b < c then b else c, if b < c then c else b);
        assert false;
      }
    }
  }

  /** Stacked VMs, permits, and calls between their two halves, at any moment. */
  lemma StackMatchesPermits(vms: seq<VM>, steps: seq<Step>)
    ensures var s := Run(Initial(vms), steps);
            && |s.stack| == s.permits + Owed(s.callers)
            && s.permits + Owed(s.callers) + Holders(s.callers) + |s.lost| == |vms|
  {
    RunKeepsInv(Initial(vms), steps, vms);
  }

  lemma {:induction false} AllOutside(cs: seq<Phase>)
    requires forall c :: 0 <= c < |cs| ==> cs[c].Outside?
    ensures Holders(cs) == 0 && Owed(cs) == 0 && forall v :: Copies(cs, v) == 0
  {
    if cs != [] {
      AllOutside(cs[1..]);
    }
  }

  /**
   When everybody is done the pool is whole but for what was lost: as many permits as VMs, and
   each failed reset cost exactly one of either.
   */
  lemma QuietPoolIsWhole(vms: seq<VM>, steps: seq<Step>)
    requires forall c :: 0 <= c < |Run(Initial(vms), steps).callers| ==> Run(Initial(vms), steps).callers[c].Outside?
    ensures var s := Run(Initial(vms), steps);
            && multiset(s.stack) + multiset(s.lost) == multiset(vms)
            && |s.stack| == s.permits && s.permits + |s.lost| == |vms|
            && s.permits == |vms| - FailedResets(Initial(vms), steps)
  {
    var s := Run(Initial(vms), steps);
    RunKeepsInv(Initial(vms), steps, vms);
    FailedResetsLose(Initial(vms), steps);
    AllOutside(s.callers);
    forall v ensures (multiset(s.stack) + multiset(s.lost))[v] == multiset(vms)[v] {
      assert Accounted(s, vms, v);
    }
  }
}
