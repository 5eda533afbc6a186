# Verified model of libvmod-tinykvm

libvmod-tinykvm is a Varnish module that answers HTTP requests from programs running
in small KVM virtual machines. This project is a Dafny model of the parts that decide
who holds which VM, when a VM is clean enough to be used again, and how bytes move
between VMs and out to Varnish, with proofs about all inputs, all runs and all
interleavings. `dafny verify dfyconfig.toml` checks it.

| files | what they model |
|---|---|
| `SharedPtr`, `Pool`, `PoolSafety`, `PoolTheorems`, `PoolFaults`, `PoolRuns` | reservation queues, deferred resets and their futures, live update and program lifetime, as a state machine whose steps interleave freely |
| `Machine`, `RegexCache` | the host's state of one VM, its reset, and the table of compiled patterns |
| `Chain`, `ChainBody`, `ChainExecutor`, `ToString` | chains of programs: reservations, composition and what is left of it at delivery, the queue that VCL fills |
| `Post`, `GuestMemory` | the transfer of a response into the next VM, on memory |
| `Pull`, `Streaming` | delivery of buffered and streamed bodies |
| `BackendCall` | one call into a VM, error handling included |
| `StorageCall` | calls into the storage VM, with 64-bit wrap-around |
| `Timer` | the timer system, with add and remove during a handler |
| `Crc32c`, `Lfsr` | CRC-32C, bit-serial, with the CPU's instructions, and by table |
| `HttpFields` | the header table |
| `Warmup`, `XorShift` | the warmup loop and the random number generator |
| `Options` | optional values |

Guest programs, the hypervisor, workspaces, clocks and the network appear as parameters
about which nothing is assumed beyond what a contract says: a program is any function of
what it is given, a callback any function of all earlier callbacks.

The pool takes every holder to free its reservation once; that the chain executor and
the string chain do so, and exactly when, is what `Chain.BalanceExact` and
`ToString.EndsWellExact` state. That a call which met an exception marks its VM for
reset, on which the pool's isolation rests, is stated by `BackendCall.Call`. The
pool's results speak of runs up to the first touch of something destroyed, a fault;
`PoolFaults.FaultExact` says exactly which runs have one.

Where the code does not have a property it seems meant to have, the code is modelled as
it is and the exact condition is proved, together with an input on which the property
fails:

- A chain whose last two programs are the same loses a reservation if the request held
  one before, or, in the open-source build, if the response is short
  (`Chain.BalanceExact`, `Chain.UnsafeLeaks`). The comment at
  src/kvm/kvm_backend.c:408-409 says that the branch avoids such a loss.
- The body of a short response is delivered from a VM already given back when there is no
  workspace for its copy, and so is the body of a program that ends a chain before its
  last one (`ChainBody.BackedExact`, `ChainBody.ReadsExact`, `ChainBody.ReleasedUnread`,
  `ChainBody.InterruptedUnread`).
- A program that re-uses the VM of the one before is given damaged bytes where the copies
  overlap (`Post.TransferExact`, `ChainBody.GivenExact`).
- A streamed response shorter than the early-release size fails the assertion at
  src/kvm/kvm_backend.c:541 (`ChainBody.AbortExact`). The one at
  lib/libkvm/backend.cpp:650 fails for several buffers the first of which is empty
  (`Post.PostToAnother`); no gathered response has such buffers and none reaches it
  (`ChainBody.RunGathers`).
- In the open-source build a request that fails for lack of workspace leaves the name of a
  freed VM to a retry (`Chain.RetryExact`, `Chain.UnsafeDangles`).
- A chain run for a string kills the process when it begins with a fetch, since a fetch
  has no tenant whose name could be logged (`ToString.DiesExact`, src/kvm/to_string.c:108-109
  and lib/libkvm/kvm_vcc_api.cpp:51-55). It frees a reservation twice when a program
  after the first ends it by status (`ToString.EndsWellExact`).
- An initialization that fails after its first VM was queued drops the main VM that every
  free needs (`PoolFaults.FaultExact`, `PoolRuns.LateFailureFaults`).
- The free function hands a reset over before it stores its future. When nobody else refers
  to the program, the reset can end it first, and the future is then stored in a VM that is
  gone (`PoolFaults.NoFaultExact`, `PoolFaults.ReferenceOutlives`,
  `PoolRuns.LateStoreFaults`). When the store comes first and the VM is not the first one,
  the destructor waits for the reset that it runs in (`PoolFaults.SelfWaitExact`,
  `PoolFaults.StuckStays`, `PoolRuns.SelfWaitHappens`).
- A header text with a NUL byte inside is checked whole and stored up to that byte, so what
  is stored need not obey the rule (`HttpFields.StoredValid`, `HttpFields.RunExact`,
  `HttpFields.NulDefeatsValidator`).
- A storage call without a result buffer can return the value that stands for failure
  (`StorageCall.FailureVisible`).
- A full queue of programs stays full (`ChainExecutor.RecoverExact`), while the comment at
  src/kvm/kvm_backend.c:706 says that adding cannot fail.
- Heuristic warmup with a count of zero need not end (`Warmup.EndsExact`).
- The header name check stops at its own embedded terminator (`HttpFields.KeyRule`).

## Model

| member | source | states |
|---|---|---|
| `PoolTheorems.RunKeeps` | lib/libkvm/program_instance.cpp:492-565 | the invariant holds after every interleaving of any length that ends without a fault |
| `PoolTheorems.StepKeeps` | lib/libkvm/program_instance.cpp:492-565 | every enabled step of the pool (create, start, fork, fail, load, commit, reload, reserve, run, error, free, store of a future, deferred reset, destroy) keeps the whole invariant, unless it touches something destroyed |
| `PoolTheorems.Conservation` | lib/libkvm/program_instance.cpp:318-346 | in every state reached without a fault a started VM is in exactly one place: one entry of its own program's queues, one reservation or one reset task |
| `PoolTheorems.ExclusiveOwnership` | lib/libkvm/program_instance.cpp:492-521 | no two requests ever hold the same VM; a held VM is neither queued nor being reset |
| `PoolTheorems.Lifetime` | lib/libkvm/program_instance.cpp:515-517 | every reference count equals the number of holders; a reserved or resetting VM refers to its own program, which is therefore alive |
| `PoolTheorems.QueuedVmsIsolated` | lib/libkvm/program_instance.cpp:532-563 | a queued VM that is ephemeral, was reserved with soft reset or went through error handling has memory, areas, signal handler and regex table of its main VM |
| `PoolTheorems.DequeueReserves` | lib/libkvm/program_instance.cpp:499-521 | what a queue hands out belongs to the program whose queue it is |
| `PoolTheorems.LoadedIsReserved` | lib/libkvm/tenant_instance.cpp:300-329 | a thread that loaded a program pointer reserves a VM of that program, however others interleave while it waits |
| `PoolTheorems.CommitVisible` | lib/libkvm/tenant_instance.cpp:452-477 | every reservation that loads the pointer after a commit gets a VM of the committed program and keeps that program alive |
| `PoolTheorems.TargetSurvives` | lib/libkvm/tenant_instance.cpp:479-511 | a shared pointer variable keeps its target over any run in which nobody writes it |
| `PoolFaults.FaultExact` | lib/libkvm/program_instance.cpp:526-565 | a run ends in a fault if and only if one of its steps recycles a VM of a program whose main VM a late failure dropped, or stores a future in a VM that is gone; no other step can touch something destroyed |
| `PoolFaults.NoFaultExact` | lib/libkvm/program_instance.cpp:546-563 | without a late failure, a run touches nothing destroyed, and neither will the stores it left to be made, if and only if no program was destroyed before every future of its VMs was stored |
| `PoolFaults.ReferenceOutlives` | lib/libkvm/program_instance.cpp:515-517 | a VM exists, so that its future can be stored, as long as any program pointer or local variable goes on to refer to its program, whatever else happens |
| `PoolFaults.DestructorAlone` | lib/libkvm/program_instance.cpp:379-401 | when a destructor begins, no VM of its program is reserved, waits for its reset or is in a reset that has not dropped its reference, so there is no other reset to wait for |
| `PoolFaults.SelfWaitExact` | lib/libkvm/program_instance.cpp:382-389 | the destructor waits for the reset it runs in, whatever happens between the drop of the last reference and its beginning, if and only if the reset of a VM other than the first dropped that reference and its future is the one the VM holds |
| `PoolFaults.StuckStays` | lib/libkvm/program_instance.cpp:382-389 | such a program is never destroyed |
| `PoolRuns.RequestServed` | lib/libkvm/program_instance.cpp:492-521 | for every main VM there is a run from the empty pool in which a request holds its first VM, and one with a later VM |
| `PoolRuns.LateFailureFaults` | lib/libkvm/program_instance.cpp:369-377 | for every main VM there is a run with a late failure in which a request that frees its VM faults |
| `PoolRuns.LateStoreFaults` | lib/libkvm/program_instance.cpp:546-563 | for every main VM, first VM or not, there is a run without a failure in which the freeing thread stores the future in a VM already destroyed |
| `PoolRuns.SelfWaitHappens` | lib/libkvm/program_instance.cpp:382-389 | for every main VM there is a run in which the destructor waits for itself |
| `PoolSafety.FreeKeeps` | lib/libkvm/program_instance.cpp:526-565 | freeing a reservation keeps the invariant, both when the VM is queued at once and when its reset is handed over, the store of the future being a step of its own |
| `PoolSafety.ResetTaskKeeps` | lib/libkvm/program_instance.cpp:548-563 | the deferred reset keeps the invariant |
| `PoolSafety.DestroyBooks` | lib/libkvm/program_instance.cpp:379-401 | destroying a program that nobody refers to keeps the books; when the destructor gets that far is `PoolFaults.SelfWaitExact` |
| `SharedPtr.AssignExact` | lib/libkvm/tenant_instance.cpp:452-490 | assigning a shared pointer keeps every count equal to the number of holders |
| `SharedPtr.MoveExact` | lib/libkvm/program_instance.cpp:515-517 | moving one keeps the counts exact |
| `SharedPtr.ZeroMeansUnheld` | lib/libkvm/program_instance.cpp:542-545 | a program with count zero is held by nobody |
| `Machine.RecycleCleans` | lib/libkvm/machine_instance.cpp:463-511 | a VM marked for reset in any of the three ways comes out of recycling like a new fork of its main VM; otherwise only its own patterns are released |
| `Machine.MachineInstance.Forked` | lib/libkvm/machine_instance.cpp:380-450 | a forked VM has the state derived from its source |
| `Machine.MachineInstance.TailResetNow` | lib/libkvm/machine_instance.cpp:452-462 | releases exactly the owned patterns |
| `Machine.MachineInstance.ResetNow` | lib/libkvm/machine_instance.cpp:467-511 | the reset happens exactly when one is needed, and does not touch the source |
| `Machine.MachineInstance.RecycleNow` | lib/libkvm/program_instance.cpp:532-557 | tail reset and reset together; clean for the main VM whenever a reset took place |
| `Machine.MachineInstance.BeginCall` | lib/libkvm/machine_instance.hpp:82 | clears the response marker |
| `Machine.MachineInstance.ResetNeededNow` | lib/libkvm/machine_instance.hpp:85 | marks the VM for reset |
| `Chain.BalanceExact` | src/kvm/kvm_backend.c:363-502 | whatever the surroundings answer, every reservation is given back exactly once, if and only if the chain does not end in a re-used VM, or no VM was held before and the build or the settings do not release it without a context |
| `Chain.RunBalances` | src/kvm/kvm_backend.c:375-502 | the sufficient half, for every exit of the loop from any of its turns |
| `Chain.UnsafeLeaks` | src/kvm/kvm_backend.c:79-91 | a chain that does not meet the condition loses a reservation in a request in which everything succeeds |
| `Chain.MiddleTurn` | src/kvm/kvm_backend.c:400-502 | a turn before the last leaves one VM reserved where the loop goes on and none where it ends |
| `Chain.LastTurn` | src/kvm/kvm_backend.c:400-502 | after the last turn what is reserved is what the end of the request frees |
| `Chain.LastFails` | src/kvm/kvm_backend.c:400-502 | so it is when the last turn fails |
| `Chain.FetchTurn` | src/kvm/kvm_backend.c:384-398 | a self-request reserves nothing |
| `Chain.FinalizeBalances` | src/kvm/kvm_backend.c:523-551 | the early release and the end of the request free what is reserved |
| `Chain.AtMostTwo` | src/kvm/kvm_backend.c:400-431 | never more than two VMs of the chain are reserved at once |
| `Chain.RetryReserves` | lib/libkvm/tenant_instance.cpp:201-240 | a retry is only ever handed reserved VMs if and only if the books name no VM that is given back |
| `Chain.RetryExact` | lib/libkvm/tenant_instance.cpp:201-286 | a retry on the books a request left is only handed reserved VMs, whatever the request met, if and only if the build or the workspace has room for the finishing record, a VM was held before, or the last program does not reserve for itself |
| `Chain.UnsafeDangles` | lib/libkvm/tenant_instance.cpp:231-239 | a request whose finishing record does not fit leaves the name of a VM that is already given back |
| `ChainBody.TurnDenotes` | src/kvm/kvm_backend.c:375-502 | a turn whose transfer is not damaged computes what its item answers to the answers before it |
| `ChainBody.NextGiven` | src/kvm/kvm_backend.c:458-482 | the POST of a later program, transferred buffer by buffer into its VM, is the previous response |
| `ChainBody.GivenExact` | src/kvm/kvm_backend.c:458-482 | a program that re-uses a VM is given the previous response for all memory contents and all outcomes of overlapping copies if and only if the response is not damaged |
| `ChainBody.RunServed` | src/kvm/kvm_backend.c:375-502 | the loop gets to its first stop if and only if every item up to there gets a VM and its POST, and then with that item's composition |
| `ChainBody.RunDenotes` | src/kvm/kvm_backend.c:375-502 | the response at the end is that of the first item whose status ends the chain, or of the last, applied to the responses before it |
| `ChainBody.RunEndsIn` | src/kvm/kvm_backend.c:484-502 | where the last response lies and who holds that VM, for every way the loop ends |
| `ChainBody.AbortExact` | src/kvm/kvm_backend.c:533-546 | the process aborts if and only if the loop ends with a program whose answer is streamed, shorter than the early-release size and to be copied |
| `ChainBody.DeliveredExact` | src/kvm/kvm_backend.c:284-566 | something is delivered if and only if there is workspace to begin and to end with, every item that the chain comes to gets a VM and its POST, and the last answer does not abort the process |
| `ChainBody.BackedExact` | src/kvm/kvm_backend.c:523-551 | a delivered body is backed by the workspace, the heap or a VM still held if and only if it is empty, fetched, or the last program's and long, copied, or in a VM that the early release does not free |
| `ChainBody.ReadsExact` | src/kvm/kvm_backend.c:523-551 | the bytes read are the program's for everything that released VMs may hold by then if and only if the body is backed |
| `ChainBody.ReleasedUnread` | src/kvm/kvm_backend.c:533-550 | without workspace for the copy a short body is delivered from a VM already given back, buffered or streamed |
| `ChainBody.InterruptedUnread` | src/kvm/kvm_backend.c:494-500 | so is the body of a program that ends the chain before the last |
| `ChainBody.ChainComposes` | src/kvm/kvm_backend.c:375-566 | end to end, as far as no transfer within one VM damages a response and the body is backed, what Varnish pulls in pieces of any size is the body of pn(...p1(request body)) |
| `ChainExecutor.BackendRequest.GetHeaders` | src/kvm/kvm_backend.c:284-566 | the imperative executor ends with exactly the reservations, the abort, the response and the place of its body that the specification describes |
| `ChainExecutor.BackendRequest.RunChain` | src/kvm/kvm_backend.c:375-502 | the loop over the chain |
| `ChainExecutor.BackendRequest.TakeProgramTurn` | src/kvm/kvm_backend.c:400-501 | one program: reservation, POST out of the VM before, call, or what a failure gives back |
| `ChainExecutor.BackendRequest.LetGo` | src/kvm/kvm_backend.c:470-482 | what a failed transfer frees |
| `ChainExecutor.GivePost` | src/kvm/kvm_backend.c:458-482 | the POST of a program, moved between the memories of the two VMs by the transfer loop |
| `ChainExecutor.BackendRequest.InvokeProgram` | src/kvm/kvm_backend.c:433-501 | the call of one program: the release of the VM before, the response and the break status |
| `ChainExecutor.BackendRequest.ReserveSlot` | src/kvm/kvm_backend.c:403-422 | re-use, temporary reservation or reservation for the request |
| `ChainExecutor.BackendRequest.Reserve` | lib/libkvm/tenant_instance.cpp:201-286 | a reservation made earlier in the request is used again; the open-source build gives the VM back when the workspace is full |
| `ChainExecutor.BackendRequest.FreeReserved` | lib/libkvm/kvm_vcc_api.cpp:84-92 | freeing a slot that is not reserved shows in the ledger |
| `ChainExecutor.BackendRequest.EarlySlotRelease` | src/kvm/kvm_backend.c:76-91 | releases through the bound function, without a context |
| `ChainExecutor.ProgramQueue.InitChain` | src/kvm/kvm_backend.c:613-648 | adds a program unless the queue is full or the first program has no headers |
| `ChainExecutor.ProgramQueue.InitFetch` | src/kvm/kvm_backend.c:649-667 | a fetch can only be the first item |
| `ChainExecutor.ProgramQueue.Backend` | src/kvm/kvm_backend.c:668-716 | the chain handed over has at most sixteen items, ends in a program and leaves an empty queue |
| `ChainExecutor.RecoverExact` | src/kvm/kvm_backend.c:613-674 | a queue can be brought back to empty by VCL exactly as long as it is not full |
| `ChainExecutor.FullForever` | src/kvm/kvm_backend.c:613-674 | no sequence of VCL calls changes a full queue |
| `ToString.RunChain` | src/kvm/to_string.c:60-173 | the loop of a chain run inside VCL, the death of the process included |
| `ToString.TurnKeeps` | src/kvm/to_string.c:89-156 | a turn keeps the ledger, unless a later program ends the chain by its status; it kills the process exactly at a fetch |
| `ToString.RunKeeps` | src/kvm/to_string.c:89-173 | a chain of programs in which no later one can end it by status gives everything back once |
| `ToString.DiesExact` | src/kvm/to_string.c:89-112 | the process dies if and only if the chain begins with a fetch, whatever the surroundings answer |
| `ToString.BreakFreesTwice` | src/kvm/to_string.c:133-148 | a later program that ends the chain makes the reservation before it be freed twice |
| `ToString.EndsWellExact` | src/kvm/to_string.c:60-173 | the process survives and every reservation is given back exactly once for all surroundings if and only if the chain does not begin with a fetch and no program after the first can end it by its status |
| `ToString.StringDenotes` | src/kvm/to_string.c:89-173 | the chain ends with the composition of all programs, or the bare status of the first that ends it, or 500 |
| `ToString.CompletesExact` | src/kvm/to_string.c:89-173 | it is completed if and only if every program gets a VM, takes the previous response and stays below its break status |
| `ToString.StringExact` | src/kvm/to_string.c:181-250 | VCL gets the content of the composition if and only if the chain is completed with workspace to spare, the empty string if and only if only that is missing, nothing if and only if the process dies, and a message or its own error string otherwise |
| `ToString.CopyContent` | src/kvm/to_string.c:188-211 | the copy into the workspace is the body |
| `ToString.Give` | src/kvm/to_string.c:113-134 | the POST of a program, by the same transfer loop |
| `ToString.ReceivedIsBody` | src/kvm/to_string.c:113-134 | a completed transfer gives the program the previous response |
| `Post.PostToAnother` | src/kvm/kvm_backend.c:244-264 | exactly when the transfer completes, fails, or aborts, and the receiving memory after it |
| `Post.StreamingPost` | lib/libkvm/backend.cpp:602-662 | one segment: capacity, first allocation, copy at the running offset |
| `Post.TransferBuffer` | src/kvm/kvm_backend.c:248-263 | one buffer, read when it is copied and not before |
| `Post.Guest.AllocatePostData` | lib/libkvm/machine_instance.cpp:597-609 | the area is kept if it is large enough |
| `Post.TakenIsResponse` | src/kvm/kvm_backend.c:458-482 | a completed transfer leaves the previous response in the POST area and changes nothing else: always between two VMs, within one VM unless it is damaged |
| `Post.TransferExact` | src/kvm/kvm_backend.c:458-482 | a program re-using a VM is given the previous response, for all memory contents and all outcomes of overlapping copies, if and only if it is not damaged |
| `Post.ShuffleOutside` | lib/libkvm/backend.cpp:645-661 | no transfer writes outside the POST area |
| `Post.ShuffleBetween` | lib/libkvm/backend.cpp:645-661 | between two VMs the bytes arrive in order and nothing else changes |
| `Post.ShuffleWithin` | lib/libkvm/backend.cpp:645-661 | within one VM as well, whatever overlapping copies deliver, unless the POST area begins inside a response copied in several pieces or a piece overlaps its destination |
| `Post.OvertakenFails` | lib/libkvm/backend.cpp:645-661 | a memory in which such a transfer delivers wrong bytes, for every size and every such position |
| `Post.StraddledFails` | lib/libkvm/backend.cpp:645-661 | a memory and a copy of overlapping bytes that deliver wrong bytes, for every size and every piece that overlaps its destination |
| `Post.WithinExact` | lib/libkvm/backend.cpp:645-661 | within one VM the transfer is right for all memory contents and all outcomes of overlapping copies if and only if the response is neither overtaken nor straddled |
| `Post.PostToCallback` | lib/libkvm/backend.cpp:617-643 | the streaming function gets the response in order with the cumulative offset; success exactly when every piece was consumed completely and all of it fits |
| `Pull.FetchProcessor.FetchPull` | src/kvm/kvm_backend.c:128-173 | one pull, consuming the buffers in place |
| `Pull.PullOnceCorrect` | src/kvm/kvm_backend.c:145-172 | a pull hands out the next bytes, an OK pull fills its space, END comes exactly when the last buffer is drained |
| `Pull.DrainCorrect` | src/kvm/kvm_backend.c:128-173 | for every sequence of pull sizes the pieces are the body |
| `Pull.DrainExact` | src/kvm/kvm_backend.c:153-171 | with non-empty buffers END has come if and only if everything was asked for |
| `Pull.CopyToWorkspace` | src/kvm/kvm_backend.c:533-546 | the short-response copy is the concatenation of the buffers |
| `Pull.EarlyReleaseSameBody` | src/kvm/kvm_backend.c:523-551 | where the copy is made, the delivered body is the same with and without it; what happens where it is not made is `ChainBody.BackedExact` |
| `Streaming.StreamEntry.StreamingPull` | src/kvm/kvm_streaming_backend.c:4-37 | terminates for every guest, bytes land in order, an OK pull is full, END only at the content length |
| `Streaming.StreamEntry.StreamingDelivery` | lib/libkvm/backend.cpp:692-724 | one callback: at most the room, or an exception |
| `Streaming.InformedAt` | src/kvm/kvm_streaming_backend.c:15-23 | every callback was told exactly how many bytes had been delivered before |
| `Streaming.DeliveredGrows` | src/kvm/kvm_streaming_backend.c:15-23 | what was delivered stays delivered |
| `Streaming.OverrunNeverEnds` | src/kvm/kvm_streaming_backend.c:25-29 | once more than the content length was delivered, no later total equals it |
| `BackendCall.Call` | lib/libkvm/backend.cpp:432-600 | the answer of the program, or the VM is marked for reset and the fallback is delivered; which of the two, exactly |
| `BackendCall.HandleError` | lib/libkvm/backend.cpp:268-356 | the error callback's answer if it succeeds, an empty 500 otherwise; always marks the VM for reset |
| `BackendCall.FetchResult` | lib/libkvm/backend.cpp:115-263 | accepts exactly the acceptable responses, in the order of checks of the code, and fills the result from the registers |
| `BackendCall.TakeExtra` | lib/libkvm/backend.cpp:199-262 | the optional extra record is taken exactly when every part of it is acceptable |
| `BackendCall.SetHeaders` | lib/libkvm/backend.cpp:244-252 | all headers are set or the response is refused |
| `BackendCall.Signed16` | lib/libkvm/backend.cpp:107-113 | reading the status as a signed number changes nothing about its validity |
| `BackendCall.RunGuest` | lib/libkvm/system_calls_api.cpp:49-58 | the marker holds the last response call of the run, and the guest leaves any memory, handler, patterns and areas |
| `BackendCall.Try` | lib/libkvm/backend.cpp:445-566 | an attempt succeeds exactly when the run raised no exception and ended in a response call with an acceptable response |
| `BackendCall.StatusAlwaysValid` | lib/libkvm/backend.cpp:107-122 | for every guest behaviour the status is within 200 to 599, and anything but the empty 500 comes from a run whose last response call is one of the two |
| `BackendCall.ServeAndFree` | lib/libkvm/program_instance.cpp:507-557 | a VM reserved with or without soft reset, called and freed: an exception, a soft reset, an earlier mark or an ephemeral VM leave nothing of the request behind, whatever the guest did |
| `StorageCall.PlaceInputs` | lib/libkvm/program_instance.cpp:586-603 | succeeds exactly when the inputs fit, addresses wrapping around included, and then lays out memory as required |
| `StorageCall.PlaceBuffers` | lib/libkvm/program_instance.cpp:591-597 | the placing loop with the caller's buffers updated in place |
| `StorageCall.PlaceNext` | lib/libkvm/program_instance.cpp:592-596 | one turn of it |
| `StorageCall.PlaceDescriptors` | lib/libkvm/program_instance.cpp:599-603 | the descriptor array and the aligned new stack pointer |
| `StorageCall.LayoutPlaces` | lib/libkvm/program_instance.cpp:586-603 | every buffer lies aligned between the descriptors and the stack top with the caller's bytes, and the guest reads back its descriptor |
| `StorageCall.LayoutSeparates` | lib/libkvm/program_instance.cpp:586-603 | two buffers have nothing in common |
| `StorageCall.DescriptorReadable` | lib/libkvm/program_instance.cpp:599-601 | decoding entry i of the array gives descriptor i |
| `StorageCall.DecodeEncode` | lib/libkvm/program_instance.cpp:601 | little-endian integers round-trip |
| `StorageCall.CallStorage` | lib/libkvm/program_instance.cpp:567-674 | the whole call: wrap check, allow list, layout, run, result |
| `StorageCall.RunStorage` | lib/libkvm/program_instance.cpp:606-671 | the value returned as a signed 64-bit number and the bytes copied back, or -1, exactly |
| `StorageCall.CallerProtected` | lib/libkvm/program_instance.cpp:637-650 | whatever the storage function does, only the caller's result buffer changes |
| `StorageCall.FailureVisible` | lib/libkvm/program_instance.cpp:606-671 | the value is -1 if and only if the call failed, or no result buffer was given and the length is 2^64 - 1 |
| `StorageCall.LiveUpdateCall` | lib/libkvm/program_instance.cpp:732-804 | the shorter of the two lengths is copied, and the new VM resumes with exactly that memory |
| `Timer.TimerSystem.AddTimer` | lib/libkvm/utils/cpptime.hpp:220-244 | adds an event under a free id and schedules it |
| `Timer.TimerSystem.RemoveTimer` | lib/libkvm/utils/cpptime.hpp:270-290 | invalidates an event and unschedules it |
| `Timer.TimerSystem.FindTime` | lib/libkvm/utils/cpptime.hpp:270-290 | the first scheduled entry of an id |
| `Timer.TimerSystem.BeginFiring` | lib/libkvm/utils/cpptime.hpp:300-316 | takes the earliest due entry and starts its handler |
| `Timer.TimerSystem.EndFiring` | lib/libkvm/utils/cpptime.hpp:317-332 | reschedules a valid periodic event or frees the id |
| `Timer.TimerSystem.InsertTime` | lib/libkvm/utils/cpptime.hpp:240 | inserts behind entries of the same time, as an ordered multiset does |
| `Timer.StepKeeps` | lib/libkvm/utils/cpptime.hpp:220-332 | add, remove, begin and end of a firing keep the invariant, in any order |
| `Timer.RunKeeps` | lib/libkvm/utils/cpptime.hpp:220-332 | the invariant holds after every run |
| `Timer.IdsAccounted` | lib/libkvm/utils/cpptime.hpp:220-332 | every id occurs exactly once among scheduled entries, free ids and the firing in flight |
| `Timer.NewIdUnused` | lib/libkvm/utils/cpptime.hpp:224-239 | add never returns an id that is scheduled or running |
| `Timer.RemovedNeverFires` | lib/libkvm/utils/cpptime.hpp:270-332 | after a remove no firing of that id begins until add returns it again |
| `Timer.FiringDeadline` | lib/libkvm/utils/cpptime.hpp:307-324 | every firing has the least deadline and is due; the k-th deadline is the first time plus k periods |
| `Crc32c.Crc32cHw` | lib/libkvm/utils/crc32.cpp:6-33 | the unrolled form equals the bit-serial CRC of the bytes for every start value, alignment and length |
| `Crc32c.HwUpdate` | lib/libkvm/utils/crc32.cpp:8-33 | the same for every linear register of this kind |
| `Crc32c.HwDoubleWords` | lib/libkvm/utils/crc32.cpp:16-20 | the loop over eight bytes |
| `Crc32c.HwWords` | lib/libkvm/utils/crc32.cpp:21-24 | the loop over four bytes |
| `Crc32c.HwTail` | lib/libkvm/utils/crc32.cpp:25-32 | the last three bytes at most |
| `Crc32c.WordInstruction` | lib/libkvm/utils/crc32.cpp:17 | the 32-bit instruction is four byte steps |
| `Crc32c.HalfWordInstruction` | lib/libkvm/utils/crc32.cpp:26 | the 16-bit instruction is two |
| `Crc32c.ByteInstruction` | lib/libkvm/utils/crc32.cpp:13 | the 8-bit instruction is one |
| `Crc32c.CrcBytewise` | lib/libkvm/utils/crc32.cpp:6-33 | a word can be fed byte by byte, for every polynomial |
| `Crc32c.CrcLaws` | lib/libkvm/utils/crc32.cpp:6-33 | the register is linear over its bits |
| `Crc32c.PolyIsReflected` | lib/libkvm/utils/crc32.cpp:6 | the constant is the bit reversal of the generator polynomial 0x1EDC6F41, section 12.1 of RFC 3720 |
| `Crc32c.SerialConcat` | lib/libkvm/system_calls_regex.cpp:10-18 | folding over chunks equals the CRC of the whole |
| `Crc32c.PatternHash` | lib/libkvm/system_calls_regex.cpp:10-18 | the hash of a pattern depends on its bytes only, not on the regions it lies in or their alignment |
| `Crc32c.GenTable` | lib/libkvm/utils/crc32.hpp:8-25 | entry j of the table is eight clocks of the register that holds j |
| `Crc32c.GenEntry` | lib/libkvm/utils/crc32.hpp:15-22 | one entry |
| `Crc32c.TableStep` | lib/libkvm/utils/crc32.hpp:46-48 | one lookup replaces eight clocks |
| `Crc32c.TableUpdate` | lib/libkvm/utils/crc32.hpp:45-48 | the loop over the data |
| `Crc32c.Crc32` | lib/libkvm/utils/crc32.hpp:39-50 | the table-driven form equals the bit-serial one for every polynomial |
| `Lfsr.ClocksFeed` | lib/libkvm/utils/crc32.cpp:8-33 | combining the operand first and clocking then equals feeding it bit by bit, for any register that obeys the laws |
| `Lfsr.PeelLow` | lib/libkvm/utils/crc32.cpp:8-33 | the low bits can be fed on their own, the rest shifted down |
| `HttpFields.HttpTable.FindHdr` | lib/libkvm/system_calls_http.cpp:79-93 | the first field whose name matches, or zero |
| `HttpFields.HttpTable.UnsetAt` | lib/libkvm/system_calls_http.cpp:94-112 | removes one field and keeps the order of the others |
| `HttpFields.HttpTable.Validate` | lib/libkvm/system_calls_http.cpp:119-140 | the field rule |
| `HttpFields.HttpTable.ValidateKey` | lib/libkvm/system_calls_http.cpp:141-153 | the field name rule as the code applies it |
| `HttpFields.HttpTable.Append` | lib/libkvm/system_calls_http.cpp:155-169 | appends a valid field if there is room |
| `HttpFields.HttpTable.HttpSet` | lib/libkvm/system_calls_http.cpp:195-245 | replaces, appends or unsets |
| `HttpFields.HttpTable.RegexCopyTo` | lib/libkvm/system_calls_http.cpp:323-358 | copies the matching fields, also onto the same table |
| `HttpFields.SameFromIsSameName` | lib/libkvm/system_calls_http.cpp:88 | the comparison is equality up to case, section 5.1 of RFC 9110 |
| `HttpFields.SpellingIrrelevant` | lib/libkvm/system_calls_http.cpp:79-93 | two spellings of a name find the same fields |
| `HttpFields.FirstMatchFound` | lib/libkvm/system_calls_http.cpp:79-93 | a lookup finds the first match and no other |
| `HttpFields.StoredValid` | lib/libkvm/system_calls_http.cpp:155-169 | of a text that passed the check, what is stored up to the first NUL obeys the rule if and only if at least four bytes, one of them behind the colon, lie before that NUL and no space ends them |
| `HttpFields.StepExact` | lib/libkvm/system_calls_http.cpp:155-245 | append, set and unset keep the table derived from the one before if and only if what they append is sound in that sense |
| `HttpFields.RunExact` | lib/libkvm/system_calls_http.cpp:155-245 | over any sequence of operations the count stays within bounds, protocol fields never change and every added field obeys the rule, at every point, if and only if every appended text is sound |
| `HttpFields.RunKeeps` | lib/libkvm/system_calls_http.cpp:155-245 | so it does over every sequence of operations without NUL bytes |
| `HttpFields.NulDefeatsValidator` | lib/libkvm/system_calls_http.cpp:120-169 | with a NUL byte a field can be stored that does not obey the rule |
| `HttpFields.SetThenFind` | lib/libkvm/system_calls_http.cpp:195-233 | a successful set is what the next lookup returns, and every other field keeps its place and value |
| `HttpFields.UnsetThenFind` | lib/libkvm/system_calls_http.cpp:234-243 | after an unset the lookup finds nothing if and only if there was no second field of that name |
| `HttpFields.KeyRule` | lib/libkvm/system_calls_http.cpp:141-153 | the names refused are exactly the empty, the too long and those with a colon, a space or a NUL; the control characters listed after the embedded terminator are not refused |
| `HttpFields.CopyKeeps` | lib/libkvm/system_calls_http.cpp:335-354 | what a copy appends, every field of it, and what it leaves |
| `RegexCache.Cache.FindHash` | lib/libkvm/instance_cache.hpp:38-43 | the first entry with that hash |
| `RegexCache.Cache.ManageItem` | lib/libkvm/instance_cache.hpp:51-67 | appends or re-uses an empty entry, or fails |
| `RegexCache.Cache.FreeHandle` | lib/libkvm/instance_cache.hpp:68-71 | empties one entry |
| `RegexCache.Cache.ResetFrom` | lib/libkvm/instance_cache.hpp:93-103 | the table becomes the other one, all entries not owned |
| `RegexCache.Cache.ReleaseAllOwned` | lib/libkvm/machine_instance.cpp:452-458 | frees exactly the owned items |
| `RegexCache.Cache.SyscallCompile` | lib/libkvm/system_calls_regex.cpp:20-53 | an existing handle or a new one |
| `RegexCache.LoanEstablishes` | lib/libkvm/instance_cache.hpp:93-103 | after reset and loan the invariant holds |
| `RegexCache.StepKeeps` | lib/libkvm/instance_cache.hpp:38-71 | compile and free keep it |
| `RegexCache.RunKeeps` | lib/libkvm/instance_cache.hpp:38-71 | over any run live hashes stay distinct and ownership right |
| `RegexCache.OwnedItemsAre` | lib/libkvm/instance_cache.hpp:104-109 | the entries visited for freeing are exactly the live owned ones |
| `RegexCache.LoanedNeverFreed` | lib/libkvm/machine_instance.cpp:452-458 | a pattern loaned from the main VM is never freed by a fork, whatever handles it frees and re-uses |
| `RegexCache.LiveHandleStable` | lib/libkvm/instance_cache.hpp:51-71 | a live handle is never overwritten |
| `RegexCache.CompileIsStable` | lib/libkvm/system_calls_regex.cpp:20-53 | compiling a live pattern again returns the same handle |
| `Warmup.WarmUp` | lib/libkvm/backend.cpp:864-902 | ends with the first request that fails or meets the ending rule; terminates by the pair of best time and tries left |
| `Warmup.EndsExact` | lib/libkvm/backend.cpp:864-902 | ends for all measured times if and only if the count is exact or at least one, for every integer count |
| `Warmup.ExactCount` | lib/libkvm/backend.cpp:873-881 | exact mode makes the configured number of requests, one if that is zero, unless one fails |
| `Warmup.HeuristicMeaning` | lib/libkvm/backend.cpp:882-901 | heuristic mode ends right after the n-th request in a row that did not improve on the best time, which is the least of all |
| `XorShift.AddIsSum` | lib/libkvm/utils/xorshift.hpp:25 | the returned sum is the sum of the two words, up to the carry that wraps around |
| `XorShift.RecoverFeed` | lib/libkvm/utils/xorshift.hpp:18-26 | the replaced word can be computed back |
| `XorShift.FeedRecover` | lib/libkvm/utils/xorshift.hpp:18-26 | and every word is reached |
| `XorShift.BackStep` | lib/libkvm/utils/xorshift.hpp:18-26 | the state step has a left inverse |
| `XorShift.StepBack` | lib/libkvm/utils/xorshift.hpp:18-26 | and a right inverse, the same one |
| `XorShift.AfterInjective` | lib/libkvm/utils/xorshift.hpp:18-26 | different seeds stay different for any number of calls |
| `XorShift.ZeroExact` | lib/libkvm/utils/xorshift.hpp:18-26 | the zero state is reached if and only if it was the seed |
| `XorShift.XorPrng.RandU64` | lib/libkvm/utils/xorshift.hpp:61-64 | one call of the generator |
| `XorShift.XorPrng.RandBool` | lib/libkvm/utils/xorshift.hpp:66-73 | the next lower bit of the latest word, of a new one when the bits are used up |
| `XorShift.FlipOrigin` | lib/libkvm/utils/xorshift.hpp:66-73 | flip k is bit 63 - k mod 64 of output k div 64, for any generator |
| `XorShift.FlipOfSeed` | lib/libkvm/utils/xorshift.hpp:66-73 | the same for this generator from any seed |

## Left out

- The pool's queues, slots and pointers are values of a state machine, not objects: what a step changes in place is atomic here, and the memory order below the atomic operations is not modelled.
- What handing a job to a thread and ending a thread do inside the hypervisor's library, which is not part of the repository: a VM destroyed by its own thread, two threads that store a future in one VM at the same moment, and asynchronous calls (lib/libkvm/async_call.cpp), which nothing calls.
- The unlock counting during program start, and NUMA nodes beyond the four queues that exist.
- A main VM left not waiting by a failed warmup is accounted for in the waiting flag of its forks, not repaired.
- The random number generator of a VM: no reset touches it (lib/libkvm/machine_instance.cpp:467-511) and its output reaches the guest (lib/libkvm/backend.cpp:389-390), so a clean VM is clean but for it.
- A fork still under way when an initialization fails late: it reads a main VM that is being destroyed.
- A failing hypervisor reset: `Machine.RecycleCleans` and the isolation results take it to succeed, as the code does after logging.
- Destruction of each compiled pattern exactly once, and handles on VMs that are not reset: freeing drops the pointer, and a tail reset keeps the hash.
- The body of a response streamed in the middle of a chain: it has no buffers, so the next program is given an empty POST.
- Chain.Valid: takes programs to answer with a status within 200 to 599, which `BackendCall.StatusAlwaysValid` proves of the call itself, and with buffers as they are gathered, and allocations in a VM not to be at address zero.
- ChainBody.ChainComposes: programs with a streaming POST function are given their POST by `Post.PostToCallback`, which the chain does not call.
- Post.PostToCallback: between two VMs only; a re-used VM with a streaming function may change its own buffers while it consumes them.
- Reading the request body into the first VM, which uses the same operation as `Post.StreamingPost`.
- Content types and the other inputs forwarded along a chain, and the chunk that a self-request allocates.
- An upper bound on streamed bytes: `Streaming.OverrunNeverEnds` says what happens without one.
- Equality of `crc32c` and `crc32c_hw`: the first runs the reflected loop with the polynomial that is not reflected. The overload on zero-terminated strings is left out too.
- Data races on timer events while a handler runs: looking the handler up is part of the firing step.
- How gathering splits guest memory into buffers; buffers are taken as given, contiguous where it matters.
- StorageCall.PlaceInputs: a buffer of no bytes at an address outside the caller's memory counts as not fitting; the hypervisor's library decides that.
- Storage tasks, storage debugging, statistics, logging, cURL fetches, archives, JSON configuration, sockets, epoll and websockets.
- Regex copies whose field texts hold NUL bytes.
