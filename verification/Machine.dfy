/**
 The per-VM state that the host keeps beside the guest: the flags that decide
 whether a VM must be reset, the areas a request leaves behind, and the regex
 table. A `Vm` value is a snapshot of it; `MachineInstance` updates it in place.
 */
module Machine {
  import opened GuestMemory
  import RegexCache

  datatype Vm = Vm(
    memory: Memory,
    ephemeral: bool,
    waiting: bool,
    resetNeeded: bool,
    softReset: bool,
    responseCalled: nat,
    sighandler: nat,
    postData: nat,
    postSize: nat,
    inputs: nat,
    regex: RegexCache.Table)

  predicate IsResetNeeded(vm: Vm) {
    vm.resetNeeded || vm.softReset || vm.ephemeral
  }

  /** A request VM as the fork constructor leaves it. */
  function Fork(main: Vm, maxRegex: nat): Vm {
    Vm(main.memory, main.ephemeral, true, false, false, 0, main.sighandler, 0, 0, 0,
       RegexCache.ResetAndLoan(RegexCache.Table([], maxRegex), main.regex))
  }

  function TailReset(vm: Vm): Vm {
    vm.(regex := vm.regex.(entries := RegexCache.ReleaseOwned(vm.regex.entries)))
  }

  /** `restored` is the guest memory the hypervisor's own reset left behind; on success it is the main VM's. */
  function ResetTo(vm: Vm, main: Vm, restored: Memory): Vm {
    if !IsResetNeeded(vm) then vm
    else vm.(
      memory := restored,
      waiting := main.waiting,
      postSize := 0,
      inputs := 0,
      sighandler := main.sighandler,
      regex := RegexCache.ResetAndLoan(vm.regex, main.regex),
      resetNeeded := false,
      softReset := false)
  }

  /** What the free function does to a VM before queueing it again. */
  function Recycle(vm: Vm, main: Vm): Vm {
    ResetTo(TailReset(vm), main, main.memory)
  }

  /**
   Memory, areas, signal handler and patterns are as in a VM derived from `main`. The
   random number generator is not among them.
   */
  ghost predicate CleanFor(vm: Vm, main: Vm) {
    && vm.memory == main.memory
    && vm.sighandler == main.sighandler
    && vm.postSize == 0
    && vm.inputs == 0
    && vm.regex.entries == RegexCache.Loan(main.regex.entries)
  }

  /**
   A VM comes out of recycling clean if it was marked for reset in any of the
   three ways; otherwise only its own compiled patterns are released. A clean VM
   differs from a new fork at most in the waiting flag, and only when the main VM
   itself is not waiting.
   */
  lemma RecycleCleans(vm: Vm, main: Vm, maxRegex: nat)
    ensures IsResetNeeded(vm) ==>
              && CleanFor(Recycle(vm, main), main)
              && Recycle(vm, main).waiting == main.waiting
              && Recycle(vm, main).regex.entries == Fork(main, maxRegex).regex.entries
              && (main.waiting ==> Recycle(vm, main).waiting == Fork(main, maxRegex).waiting)
    ensures !IsResetNeeded(vm) ==> Recycle(vm, main) == TailReset(vm)
    ensures CleanFor(vm, main) ==> CleanFor(Recycle(vm, main), main)
    ensures CleanFor(vm, main) && !IsResetNeeded(vm) ==> Recycle(vm, main) == vm
    ensures CleanFor(Fork(main, maxRegex), main)
    ensures IsResetNeeded(Fork(main, maxRegex)) <==> main.ephemeral
    ensures Recycle(vm, main).ephemeral == vm.ephemeral
    ensures !Recycle(vm, main).resetNeeded && !Recycle(vm, main).softReset
  {
    var loan := RegexCache.Loan(main.regex.entries);
    assert RegexCache.ReleaseOwned(loan) == loan;
  }

  class MachineInstance {
    var memory: Memory
    var ephemeral: bool
    var waitingForRequests: bool
    var resetNeeded: bool
    var softResetNeeded: bool
    var responseCalled: nat
    var sighandler: nat
    var postData: nat
    var postSize: nat
    var inputsAllocation: nat
    const regex: RegexCache.Cache

    ghost function View(): Vm
      reads this, regex
    {
      Vm(memory, ephemeral, waitingForRequests, resetNeeded, softResetNeeded, responseCalled,
         sighandler, postData, postSize, inputsAllocation, regex.View())
    }

    constructor Forked(source: MachineInstance, maxRegex: nat)
      ensures fresh(regex)
      ensures View() == Fork(old(source.View()), maxRegex)
    {
      var cache := new RegexCache.Cache(maxRegex);
      cache.ResetFrom(source.regex);
      memory := source.memory;
      ephemeral := source.ephemeral;
      waitingForRequests := true;
      resetNeeded, softResetNeeded, responseCalled := false, false, 0;
      sighandler := source.sighandler;
      postData, postSize, inputsAllocation := 0, 0, 0;
      regex := cache;
    }

    method BeginCall()
      modifies this`responseCalled
      ensures responseCalled == 0
    {
      responseCalled := 0;
    }

    method ResetNeededNow()
      modifies this`resetNeeded
      ensures resetNeeded
    {
      resetNeeded := true;
    }

    method SetSoftReset(needed: bool)
      modifies this`softResetNeeded
      ensures softResetNeeded == needed
    {
      softResetNeeded := needed;
    }

    method TailResetNow() returns (freed: seq<nat>)
      modifies regex
      ensures View() == TailReset(old(View()))
      ensures freed == RegexCache.OwnedItems(old(regex.cache))
    {
      freed := regex.ReleaseAllOwned();
    }

    method ResetNow(source: MachineInstance, restored: Memory)
      requires source != this && source.regex != regex
      modifies this, regex
      ensures View() == ResetTo(old(View()), old(source.View()), restored)
      ensures source.View() == old(source.View())
    {
      if resetNeeded || softResetNeeded || ephemeral {
        memory := restored;
        waitingForRequests := source.waitingForRequests;
        postSize := 0;
        inputsAllocation := 0;
        sighandler := source.sighandler;
        regex.ResetFrom(source.regex);
        resetNeeded := false;
        softResetNeeded := false;
      }
    }

    /** The work of the free function on the VM itself; returns whether a reset took place. */
    method RecycleNow(main: MachineInstance) returns (wasReset: bool, freed: seq<nat>)
      requires main != this && main.regex != regex
      modifies this, regex
      ensures View() == Recycle(old(View()), old(main.View()))
      ensures wasReset ==> CleanFor(View(), main.View())
      ensures wasReset == IsResetNeeded(old(View()))
      ensures main.View() == old(main.View())
    {
      wasReset := resetNeeded || softResetNeeded || ephemeral;
      freed := TailResetNow();
      ResetNow(main, main.memory);
    }
  }
}
