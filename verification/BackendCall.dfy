/**
 A backend call into a request VM: the guest is called or resumed, its response is
 checked and taken over, and any exception on the way leads to the program's error
 callback and, failing that, to an empty 500 response. What the guest does and what
 the hypervisor and the workspace answer are parameters.
 */
module BackendCall {
  import opened GuestMemory
  import opened Machine
  import opened Options
  import RegexCache

  datatype Registers = Registers(rdi: nat, rsi: nat, rdx: nat, rcx: nat, r8: nat, r9: nat)

  datatype Payload = Buffers(data: seq<Memory>) | Stream(callback: nat, argument: nat)

  datatype Result = Result(contentType: string, status: int, contentLength: nat, payload: Payload)

  /**
   One run of the guest: the response system calls it made, how it stopped, and what it
   changed of the state that the host keeps for it.
   */
  datatype Attempt = Attempt(
    calls: seq<nat>,
    raised: bool,
    registers: Registers,
    memory: Memory,
    sighandler: nat,
    patterns: seq<RegexCache.Entry>,
    waits: bool,
    ephemeral: bool)

  const REGULAR: nat := 1
  const STREAMING: nat := 10

  datatype Extra = Extra(headers: nat, numHeaders: nat)

  /** The answers of the workspace and of guest memory while a response is taken over. */
  datatype Host = Host(
    typeSpace: bool,
    readType: (nat, nat) -> Option<string>,
    gather: (nat, nat) -> Option<seq<Memory>>,
    readExtra: nat -> Option<Extra>,
    headerSpace: bool,
    setHeader: nat -> bool)

  // ---- What an acceptable response is ----

  predicate ValidStatus(status: int) {
    200 <= status < 600
  }

  ghost predicate ExtraAcceptable(pointer: nat, host: Host) {
    pointer != 0 ==>
      && pointer >= 0x1000
      && host.readExtra(pointer).Some?
      && var extra := host.readExtra(pointer).value;
         && extra.numHeaders <= 64 && extra.headers >= 0x1000 && host.headerSpace
         && (forall i :: 0 <= i < extra.numHeaders ==> host.setHeader(i))
  }

  ghost predicate Acceptable(called: nat, r: Registers, host: Host) {
    && called in {REGULAR, STREAMING}
    && ValidStatus(r.rdi % 0x10000)
    && r.rdx % 0x10000 < 0x1000 && host.typeSpace && host.readType(r.rsi, r.rdx % 0x10000).Some?
    && (called == REGULAR ==> host.gather(r.rcx, r.r8).Some? && ExtraAcceptable(r.r9, host))
    && (called == STREAMING ==> r.rcx > 0 && r.r8 != 0)
  }

  /** The result that an acceptable response describes. */
  ghost function Described(called: nat, r: Registers, host: Host): Result
    requires Acceptable(called, r, host)
  {
    Result(host.readType(r.rsi, r.rdx % 0x10000).value, r.rdi % 0x10000,
           if called == REGULAR then r.r8 else r.rcx,
           if called == REGULAR then Buffers(host.gather(r.rcx, r.r8).value) else Stream(r.r8, r.r9))
  }

  // ---- Taking a response over ----

  /** A status held in sixteen bits as a signed number. */
  function Signed16(x: nat): (r: int)
    requires x < 0x10000
    ensures ValidStatus(r) <==> ValidStatus(x)
    ensures ValidStatus(r) ==> r == x
  {
    if x < 0x8000 then x else x - 0x10000
  }

  method SetHeaders(host: Host, numHeaders: nat) returns (ok: bool)
    ensures ok <==> forall i :: 0 <= i < numHeaders ==> host.setHeader(i)
  {
    for i := 0 to numHeaders
      invariant forall j :: 0 <= j < i ==> host.setHeader(j)
    {
      if !host.setHeader(i) {
        return false;
      }
    }
    return true;
  }

  method TakeExtra(pointer: nat, host: Host) returns (ok: bool)
    ensures ok <==> ExtraAcceptable(pointer, host)
  {
    if pointer == 0 {
      return true;
    }
    if pointer < 0x1000 {
      return false;
    }
    var extra := host.readExtra(pointer);
    if extra.None? || extra.value.numHeaders > 64 || extra.value.headers < 0x1000 || !host.headerSpace {
      return false;
    }
    ok := SetHeaders(host, extra.value.numHeaders);
  }

  /**
   Fills the result from the registers; an exception may leave it half filled. The
   checks come in the source's order, some of them after parts of the result are set.
   */
  method FetchResult(m: MachineInstance, r: Registers, host: Host, before: Result) returns (ok: bool, result: Result)
    ensures ok <==> Acceptable(m.responseCalled, r, host)
    ensures ok ==> result == Described(m.responseCalled, r, host)
  {
    result := before;
    var regular := m.responseCalled == REGULAR;
    var streaming := m.responseCalled == STREAMING;
    if !regular && !streaming {
      return false, result;
    }
    var status, length := r.rdi % 0x10000, r.rdx % 0x10000;
    if length >= 0x1000 || !host.typeSpace {
      return false, result;
    }
    var contentType := host.readType(r.rsi, length);
    if contentType.None? {
      return false, result;
    }
    if regular {
      result := result.(contentType := contentType.value);
      if !ValidStatus(Signed16(status)) {
        return false, result;
      }
      result := result.(status := Signed16(status), contentLength := r.r8);
      var buffers := host.gather(r.rcx, r.r8);
      if buffers.None? {
        return false, result;
      }
      result := result.(payload := Buffers(buffers.value));
      ok := TakeExtra(r.r9, host);
    } else {
      if r.rcx == 0 || r.r8 == 0 {
        return false, result;
      }
      result := result.(contentType := contentType.value);
      if !ValidStatus(Signed16(status)) {
        return false, result;
      }
      result := Result(contentType.value, Signed16(status), r.rcx, Stream(r.r8, r.r9));
      ok := true;
    }
  }

  // ---- Attempts ----

  /** The last response call of a run that began with the marker cleared. */
  function LastCall(calls: seq<nat>): nat {
    if calls == [] then 0 else calls[|calls| - 1]
  }

  /** A run that ended without an exception in a response call with an acceptable response. */
  ghost predicate Succeeds(attempt: Attempt, host: Host) {
    !attempt.raised && Acceptable(LastCall(attempt.calls), attempt.registers, host)
  }

  ghost function Answer(attempt: Attempt, host: Host): Result
    requires Succeeds(attempt, host)
  {
    Described(LastCall(attempt.calls), attempt.registers, host)
  }

  /**
   The guest runs; every response system call overwrites the marker. It may install a
   signal handler, compile and free patterns, start to wait, and, while it is not
   waiting for requests, change whether its VM is ephemeral.
   */
  method RunGuest(m: MachineInstance, attempt: Attempt)
    modifies m`memory, m`responseCalled, m`sighandler, m`waitingForRequests, m`ephemeral, m.regex
    ensures m.memory == attempt.memory && m.sighandler == attempt.sighandler && m.regex.cache == attempt.patterns
    ensures m.responseCalled == if attempt.calls == [] then old(m.responseCalled) else LastCall(attempt.calls)
    ensures m.waitingForRequests == (old(m.waitingForRequests) || attempt.waits)
    ensures m.ephemeral == if old(m.waitingForRequests) then old(m.ephemeral) else attempt.ephemeral
  {
    m.memory, m.sighandler := attempt.memory, attempt.sighandler;
    m.regex.cache := attempt.patterns;
    if !m.waitingForRequests {
      m.ephemeral := attempt.ephemeral;
      m.waitingForRequests := attempt.waits;
    }
    var i := 0;
    while i < |attempt.calls|
      invariant 0 <= i <= |attempt.calls|
      invariant m.responseCalled == if i == 0 then old(m.responseCalled) else attempt.calls[i - 1]
      modifies m`responseCalled
    {
      m.responseCalled := attempt.calls[i];
      i := i + 1;
    }
  }

  /** One attempt, with the marker cleared before. */
  method Try(m: MachineInstance, attempt: Attempt, host: Host, before: Result) returns (ok: bool, result: Result)
    requires m.responseCalled == 0
    modifies m`memory, m`responseCalled, m`sighandler, m`waitingForRequests, m`ephemeral, m.regex
    ensures ok <==> Succeeds(attempt, host)
    ensures ok ==> result == Answer(attempt, host)
    ensures m.memory == attempt.memory && m.responseCalled == LastCall(attempt.calls)
  {
    RunGuest(m, attempt);
    if attempt.raised {
      return false, before;
    }
    ok, result := FetchResult(m, attempt.registers, host, before);
  }

  const INTERNAL_ERROR := Result("", 500, 0, Buffers([]))

  /** The answer after an exception: that of the error callback if there is one and it succeeds, or an empty 500. */
  ghost function Fallback(onError: Option<Attempt>, host: Host): Result {
    if onError.Some? && Succeeds(onError.value, host) then Answer(onError.value, host) else INTERNAL_ERROR
  }

  method HandleError(m: MachineInstance, onError: Option<Attempt>, host: Host, before: Result) returns (result: Result)
    modifies m`memory, m`responseCalled, m`sighandler, m`waitingForRequests, m`ephemeral, m.regex, m`resetNeeded
    ensures result == Fallback(onError, host)
    ensures m.resetNeeded
  {
    m.ResetNeededNow();
    if onError.Some? {
      m.BeginCall();
      var ok, answer := Try(m, onError.value, host, before);
      if ok {
        return answer;
      }
    }
    result := INTERNAL_ERROR;
  }

  /** How the program takes requests: through a callback, or by being resumed where it waits. */
  datatype Entry = Callback | Resume(ephemeralGroup: bool, halts: bool, inputs: nat)

  /**
   A resumed VM of a non-ephemeral group must wait for requests, after running on for
   a while if need be. Waiting and responding both stop the VM, so a VM that came to
   wait this way has made no response call meanwhile.
   */
  predicate Ready(entry: Entry, waiting: bool) {
    entry.Callback? || entry.ephemeralGroup || waiting || entry.halts
  }

  /**
   The whole backend call. The normal attempt decides: its answer is delivered and the
   VM keeps its reset mark, or the VM is marked for reset and the fallback is delivered.
   */
  method Call(m: MachineInstance, entry: Entry, attempt: Attempt, host: Host,
              onError: Option<Attempt>, errorHost: Host, before: Result) returns (result: Result)
    modifies m`memory, m`responseCalled, m`sighandler, m`waitingForRequests, m`ephemeral, m.regex
    modifies m`resetNeeded, m`inputsAllocation
    ensures Ready(entry, old(m.waitingForRequests)) && Succeeds(attempt, host) ==>
              && result == Answer(attempt, host)
              && m.resetNeeded == old(m.resetNeeded)
              && m.memory == attempt.memory
              && (entry.Resume? && !entry.ephemeralGroup ==> !m.waitingForRequests)
    ensures !(Ready(entry, old(m.waitingForRequests)) && Succeeds(attempt, host)) ==>
              && result == Fallback(onError, errorHost)
              && m.resetNeeded
  {
    m.BeginCall();
    if entry.Resume? && !entry.ephemeralGroup && !m.waitingForRequests {
      m.waitingForRequests := entry.halts;
      if !m.waitingForRequests {
        result := HandleError(m, onError, errorHost, before);
        return;
      }
    }
    if entry.Resume? && m.inputsAllocation == 0 {
      m.inputsAllocation := entry.inputs;
    }
    var ok;
    ok, result := Try(m, attempt, host, before);
    if !ok {
      result := HandleError(m, onError, errorHost, result);
      return;
    }
    if entry.Resume? && !entry.ephemeralGroup {
      m.waitingForRequests := false;
    }
  }

  // ---- What the caller can rely on ----

  /** Every delivered status is a final HTTP status, whatever the guest did. */
  lemma StatusAlwaysValid(entry: Entry, waiting: bool, attempt: Attempt, host: Host,
                          onError: Option<Attempt>, errorHost: Host, result: Result)
    requires result == if Ready(entry, waiting) && Succeeds(attempt, host) then Answer(attempt, host)
                       else Fallback(onError, errorHost)
    ensures ValidStatus(result.status)
    ensures result.payload.Stream? ==> result.contentLength > 0 && result.payload.callback != 0
    ensures result != INTERNAL_ERROR ==>
              exists a :: (a == attempt || (onError.Some? && a == onError.value)) &&
                          !a.raised && a.calls != [] && LastCall(a.calls) in {REGULAR, STREAMING}
  {
    if Ready(entry, waiting) && Succeeds(attempt, host) {
      assert attempt.calls != [];
    } else if onError.Some? && Succeeds(onError.value, errorHost) {
      assert onError.value.calls != [];
    }
  }

  /**
   A VM reserved with or without soft reset, called, and given back. An exception on the
   way, a soft reset, an earlier reset mark or an ephemeral VM each leave nothing of the
   request behind for the next one, whatever the guest did.
   */
  method ServeAndFree(m: MachineInstance, main: MachineInstance, soft: bool, entry: Entry, attempt: Attempt, host: Host,
                      onError: Option<Attempt>, errorHost: Host, before: Result) returns (result: Result)
    requires main != m && main.regex != m.regex
    modifies m, m.regex
    ensures ValidStatus(result.status)
    ensures main.View() == old(main.View())
    ensures !(Ready(entry, old(m.waitingForRequests)) && Succeeds(attempt, host)) ==> CleanFor(m.View(), main.View())
    ensures soft || old(m.resetNeeded) || m.ephemeral ==> CleanFor(m.View(), main.View())
    ensures !m.resetNeeded && !m.softResetNeeded
  {
    ghost var waiting := m.waitingForRequests;
    ghost var mainView := main.View();
    m.SetSoftReset(soft);
    result := Call(m, entry, attempt, host, onError, errorHost, before);
    StatusAlwaysValid(entry, waiting, attempt, host, onError, errorHost, result);
    assert main.View() == mainView;
    ghost var called := m.View();
    var wasReset, freed := m.RecycleNow(main);
    RecycleCleans(called, mainView, 0);
  }
}
