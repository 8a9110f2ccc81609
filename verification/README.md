# VM provisioning: a verified model

This Dafny project models the provisioning core of the backend: the durable queue of VM creation
requests, the creation saga over database, Proxmox and gateway, the forwarding rules and routes it
hands out, and the timed policies and caches around it. The outside world is explicit state. Every
call to it is `Done`, `Refused` (no effect) or `Lost` (it took effect but its reply did not arrive),
and the theorems hold for every combination of these outcomes.

Where the code changes state step by step, so does the model: a class or a method with loops is
proved against a step function, and the laws over whole runs are proved about that function.

| module | models |
|---|---|
| Prelude | options and the outcomes of an external call |
| JobIds, CreationQueue | job ids; the queue's protocol and its invariant |
| QueueGuarantees, QueueQuota | what the queue guarantees over runs, and what a crash breaks |
| QueueService | enqueue, recovery and the worker's loop as runs of the protocol |
| Iptables, PortPolicy | rule chains as ordered lists; port formula, rows and the rules they stand for |
| NetworkService | ADD with inspection and compensation, DELETE with its remove-all loop |
| Allocation | VMID search, addresses under the transaction lock |
| VmService | create_vm, its cleanup, delete_vm |
| Firewall | port rows and gateway rules kept in step |
| GatewayAgreement | the same while VMs are created and deleted, with whatever outcome |
| CaddyService, HttpsGateway | the first-match route list, and rows marked synced |
| VmExpiry | leases, extension, power control, the hourly pass |
| NodeStatsCache, OAuthStores, CloneStorage, NotifySchedule | caches, one-time tokens, storage choice, notification times |

## Assumptions

- One process and one worker thread (backend/services/vm_creation_queue.py:291-295). A crash or restart empties the memory queue.
- Endpoint bodies without `await` are atomic steps of the event loop. The worker and the stopping
  part of the hourly pass run in threads and interleave with everything else.
- Commits are all-or-nothing. In the queue database calls do not raise; in port operations and in the
  creation and deletion of VMs and of HTTPS routes every commit may fail.
- The clock does not go back. Ids are ordered as strings by character code, and new job ids come
  after older ones, which holds while the fields fit their widths (`JobIds.JobIdOrder`).
- One SSH session changes the gateway at a time. In the remove-all loop, `-D` fails only when the
  rule is not there. Sources of rules are compared as written.
- Transactions that allocate addresses run under READ COMMITTED and the transaction-scoped lock.
- In runs of port operations every DELETE works and every ADD works or compensates; the endpoint methods
  state what happens otherwise.
- Random states and codes are never drawn twice. Ids of rows are not reused.
- A change of the route list whose reply was lost has taken effect when the call returns.
- Input validation has happened: addresses, protocols and source networks are well-formed.

## What the proofs found

Where a promise does not hold of the code in full, the model keeps the code and proves exactly when
the promise holds.

- Cleanup after a failed creation: Proxmox is as before exactly if the clone had no effect, or it was
  acknowledged and the machine is gone again (`CreateFaults.MachineRestored`). A clone whose reply is
  lost leaves a machine that nothing cleans up, because `clone_started` is set after the call
  (`VmService.LostCloneIsReachable`).
- A reservation whose commit reply is lost leaves its rows behind (`VmService.CreateVm`).
- Cleanup and deletion remove every copy of a rule, so chains come back exactly if none of the
  rules was there before (`VmService.CreateThenDelete`).
- `restore_default_ports` saves its rows although a gateway call failed, and when its final commit
  fails, the added rules stay without rows. The exact conditions are those of
  `Firewall.ApplyKeepsDnatExact` and `Firewall.ApplyKeepsBacked`; `Firewall.OrphanRuleIsReachable` is a run.
- A port whose deletion fails to commit keeps its row without rules (`Firewall.UnsavedDeleteBreaks`), and so
  does a refused port whose row cannot be taken back (`Firewall.UnremovedRowIsReachable`).
- delete_vm drops the rows of a VM whose rules it could not remove. They stay on the gateway, where
  nothing takes them out, and the next VM with that address meets them
  (`GatewayAgreement.ApplyKeepsInv`, `GatewayAgreement.LeftoverRulesAreReachable`).
- Deleting a port whose FORWARD rule another row shares removes that rule for both
  (`Firewall.ApplyKeepsForwardExact`, with a run in `Firewall.SharedRuleLossIsReachable`).
- A crash between create_vm's reservation and the job's last commit makes the job start over. It gets
  a second VM, or is refused although admitted (`QueueQuota.CrashMidJob`, `QueueQuota.CrashKeepsRoom`, with
  a run in `QueueQuota.RoomBreakIsReachable`).
- The pass that stops expired machines can stop one that was extended after the pass had listed it
  (`VmExpiry.StopsExtendedVms`). Deletion does not have this flaw.
  `VmExpiry.ExtendedStopIsReachable` is such a run.
- delete_https_route and delete_vm take the proxy's route out before they commit. If the commit fails,
  a row marked synced can be left without a route (`HttpsGateway.ServiceIsLost`).
- A job whose VM is deleted between create_vm's last commit and the job's own is still COMPLETED.
- Extension opens just under eight days before expiry, because whole days are compared with seven.
- States and codes are still honoured at the very moment of their expiry time.
- Default base ports lie 1000 apart (backend/core/config.py:97, 106, 115), so equal VMIDs on
  neighbouring nodes collide (`PortPolicy.PortSetsMeet`); safety rests on the search.
- The comment at backend/models/vm.py:44 and BACKEND.md:231 give thirty days at creation, BACKEND.md:211
  thirty days per extension from fifteen days on, BACKEND.md:602 three VMs; the code has seven days,
  fourteen from seven on, and two. The model follows the code.

## Model

| member | source | states |
|---|---|---|
| CreationQueue.StepKeepsInv | backend/services/vm_creation_queue.py:75-270 | No step of the endpoint, the worker, recovery, shutdown, a deletion or a crash breaks the tie between rows and memory: every QUEUED job is on its way to the worker with all earlier QUEUED jobs in front of it, RUNNING means the worker is at that job, a RUNNING job comes before all other unfinished ones, and each row is consistent (attempts even exactly when QUEUED, vmid only on COMPLETED) |
| CreationQueue.RunKeepsInv | backend/services/vm_creation_queue.py:75-270 | The same over every run of such steps in any order |
| CreationQueue.PendingAdded | backend/services/vm_creation_queue.py:77-94 | Recovery keeps the order of the line, also when the queue still holds ids from before an in-process stop |
| QueueGuarantees.NoJobLost | backend/services/vm_creation_queue.py:153-172 | No accepted job is lost: over every run, crashes and restarts included, its row stays, and while the process is up it is terminal, at the worker, or QUEUED with its id in memory or being put there |
| QueueGuarantees.RecoveryIsComplete | backend/services/vm_creation_queue.py:75-99 | Right after a crash and a start the memory queue is exactly the non-terminal jobs in (queued_at, id) order, all QUEUED |
| QueueGuarantees.PendingExists | backend/services/vm_creation_queue.py:77-87 | Any set of jobs can be listed in strict (queued_at, id) order |
| QueueGuarantees.StartIsPossible | backend/services/vm_creation_queue.py:291-317 | With no worker alive, a start is always possible: the recovery query has an answer |
| QueueGuarantees.StatusMoves | backend/services/vm_creation_queue.py:191-250 | Status moves only QUEUED to RUNNING (by a claim of that job), RUNNING to COMPLETED or FAILED, and RUNNING to QUEUED in the recovery of a new process; terminal rows do not change at all |
| QueueGuarantees.FinishedForGood | backend/services/vm_creation_queue.py:191-223 | A terminal job never changes again, in any run |
| QueueGuarantees.AttemptsCount | backend/services/vm_creation_queue.py:89-94 | attempts grows by exactly the number of claims and recoveries of the job in the run |
| QueueGuarantees.ClaimedOncePerLife | backend/services/vm_creation_queue.py:191-211 | Within one process life a job is claimed, and so handed to create_vm, at most once, whatever duplicates the queue holds and however often the worker is stopped and started |
| QueueGuarantees.ClaimTakesFirst | backend/services/vm_creation_queue.py:191-211 | A claim that succeeds takes the first QUEUED job in (queued_at, id) order |
| QueueGuarantees.ClaimsBefore | backend/services/vm_creation_queue.py:191-211 | Until a QUEUED job is claimed, only jobs ahead of it are, and unclaimed jobs stay QUEUED |
| QueueGuarantees.AheadIsClaimed | backend/services/vm_creation_queue.py:191-211 | When a job is claimed, all jobs that were ahead of it have been, and no others of those waiting with it |
| QueueGuarantees.PositionIsReal | backend/services/vm_creation_queue.py:56-72 | The reported position is 1 plus the number of waiting jobs that the run claims before this one, in every run that claims it |
| QueueGuarantees.PositionsAreOneToN | backend/services/vm_creation_queue.py:56-72 | The positions of n QUEUED jobs are 1 to n, each exactly once |
| QueueQuota.StepKeepsQuota | backend/services/vm_service.py:407-413 | No step takes a USER above the VM quota |
| QueueQuota.DeletionFreesRoom | backend/services/vm_service.py:677-762 | A deletion gives its owner room for one more VM and changes nothing for others |
| QueueQuota.QuotaOverRuns | backend/services/vm_service.py:407-413 | Over every run, crashes included, a USER never owns more than MAX_VMS_PER_USER VMs |
| QueueQuota.RoomOverRuns | backend/services/vm_creation_queue.py:122-138 | Over every run without crashes, a USER's VMs plus active jobs whose VM is not committed stay within the quota |
| QueueQuota.AdmittedIsNotRefused | backend/services/vm_creation_queue.py:122-138 | Without crashes a job admitted at enqueue is never refused by create_vm's own quota check |
| QueueQuota.CrashKeepsRoom | backend/services/vm_creation_queue.py:89-94 | A crash breaks that room exactly when it hits a USER at the limit after create_vm's first commit and before the end of the job |
| QueueQuota.RoomBreakIsReachable | backend/services/vm_creation_queue.py:225-250 | From an empty queue a run of two admitted requests leads to a state in which a crash breaks that room |
| QueueQuota.CrashMidJob | backend/services/vm_creation_queue.py:225-250 | What such a crash leads to: the interrupted job is the next one claimed, and it is refused if its owner is at the quota, else the owner gets a second VM for it |
| QueueQuota.InterruptedIsFirst | backend/services/vm_creation_queue.py:77-87 | After a crash the interrupted job leads the answer to the recovery query |
| QueueService.Service.constructor | backend/services/vm_creation_queue.py:28-32 | A fresh process starts with an empty memory queue over the rows of the last one, in a consistent state |
| QueueService.Service.Recover | backend/services/vm_creation_queue.py:89-94 | The recovery loop requeues every row of the query's answer in order and puts RUNNING ones back to QUEUED with one more attempt |
| QueueService.Service.Start | backend/services/vm_creation_queue.py:291-317 | A start is one recovery step and a waiting worker |
| QueueService.Service.Admit | backend/services/vm_creation_queue.py:122-169 | A request is stored as QUEUED if VMs and active jobs of a USER leave room, and otherwise leaves no trace |
| QueueService.Service.GetPosition | backend/services/vm_creation_queue.py:56-72 | The count by (queued_at, id) for a QUEUED job, nothing for others |
| QueueService.Service.Enqueue | backend/services/vm_creation_queue.py:153-172 | Enqueueing is admission and announcement, and answers with the last position |
| QueueService.Service.Claim | backend/services/vm_creation_queue.py:191-223 | The compare-and-set: only a QUEUED job becomes RUNNING; a job that already has a VM is completed without a second one |
| QueueService.Service.Reserve | backend/services/vm_service.py:407-413 | create_vm's quota check fails the job or commits a VM row of the job's owner |
| QueueService.Service.Record | backend/services/vm_creation_queue.py:243-264 | A VM that create_vm delivered makes the job COMPLETED with its VMID, an error makes it FAILED without one; no other row changes, also when the VM has been deleted in the meantime |
| QueueService.Service.Create | backend/services/vm_creation_queue.py:225-264 | After a claim the job ends COMPLETED with its VMID exactly if the quota left room and create_vm delivered, FAILED otherwise, and the worker is free, by a run of protocol steps |
| QueueService.Service.Process | backend/services/vm_creation_queue.py:186-270 | Processing an id finishes a QUEUED job as create_vm ended, changes no other row and none that was not QUEUED, and is a run of protocol steps without crash or recovery that leaves the worker free and the invariant intact |
| QueueService.Service.Turn | backend/services/vm_creation_queue.py:274-288 | One turn consumes one message and leaves the worker waiting, or ended by the sentinel |
| QueueService.Service.WorkerLoop | backend/services/vm_creation_queue.py:273-288 | Left alone, the worker finishes every job there is, unless the stop flag or a sentinel ends it |
| QueueService.Service.Stop | backend/services/vm_creation_queue.py:321-333 | A stop sets the flag and puts the sentinel behind everything that waits |
| QueueService.NewestIsLast | backend/services/vm_creation_queue.py:153-172 | A request admitted now has the position of the number of waiting jobs |
| QueueService.ResultIsFinal | backend/services/vm_creation_queue.py:243-264 | Over every run: once a result is committed the job is COMPLETED with that VMID for good, and once an error is, FAILED for good |
| QueueService.EmptyLineMeansDone | backend/services/vm_creation_queue.py:273-288 | With an idle worker and nothing on the way to it no job is unfinished |
| JobIds.PadValue | backend/services/vm_creation_queue.py:35-37 | Zero-padding keeps the number, and the width while the number fits |
| JobIds.JobIdInjective | backend/services/vm_creation_queue.py:35-37 | Different times, processes or counters give different ids, whatever their size |
| JobIds.JobIdOrder | backend/services/vm_creation_queue.py:35-37 | While the fields fit their widths, ids sort as strings exactly as (time, pid, counter) |
| Iptables.PurgeMembers | backend/services/network_service.py:74-77 | After remove-all, no listed rule is left and every other rule is |
| Iptables.OnlyPurgesKeepsRest | backend/services/network_service.py:74-77 | Removing only copies of listed rules brings nothing in and leaves every other rule, in order |
| Iptables.AddThenPurge | backend/services/network_service.py:66-77 | Adding what is missing and later removing all restores the chains exactly when none of the rules was there before |
| NetworkService.Gateway.DropEveryCopy | backend/services/network_service.py:74-77 | The remote remove-all loop ends with every copy gone; cut short it has only taken out copies, and the rest is in order |
| NetworkService.RunAdd | backend/services/network_service.py:80-152 | ADD is all-or-nothing: True exactly when no check or addition fails, and then the chains are the old ones plus the missing rules in order; False leaves the chains as they were, order included, if inspection failed or every addition that took effect was compensated, and for distinct rules only then; at no step is an earlier rule gone or a foreign one added |
| NetworkService.Inspect | backend/services/network_service.py:86-104 | Inspection finds exactly the missing rules, in order, and changes nothing |
| NetworkService.AppendMissing | backend/services/network_service.py:107-126 | The add pass leaves exactly a prefix of the missing rules, all of the attempted ones or all but the last |
| NetworkService.CoversWhatTookEffect | backend/services/network_service.py:107-126 | After an add pass that stopped early, compensating what took effect means compensating everything attempted that is on the gateway |
| NetworkService.RollBack | backend/services/network_service.py:142-152 | The rollback restores the chains if all compensations of applied additions take effect, and for distinct rules only then |
| NetworkService.UndoAttempt | backend/services/network_service.py:142-151 | One compensation never touches a rule that was there before |
| NetworkService.RunDelete | backend/services/network_service.py:128-140 | DELETE reports True exactly when every command works, and then no copy of any listed rule is left; a refused command does not keep it from the later rules, a cut session ends it, and in any case only copies of listed rules are gone |
| NetworkService.Add | backend/services/network_service.py:266-293 | A whole ADD session, connection failures included: its result, what it leaves, and exactly when a failure leaves nothing behind |
| NetworkService.Delete | backend/services/network_service.py:266-293 | A whole DELETE session: True only with every copy gone; in any case only copies of listed rules |
| NetworkService.ManageAdd | backend/services/network_service.py:155-222 | Forwarding a new VM: False means it undid itself exactly when the session compensates; an impossible port changes nothing |
| NetworkService.DefaultsAreForwarded | backend/services/network_service.py:176-194 | With the default rules there, ports 22, 80 and 10000 of the VM are reached, the last in TCP and UDP, from base + vmid plus 0, 1000 and 2000 |
| NetworkService.ManageDelete | backend/services/network_service.py:155-222 | Removing the default rules: True only with every copy gone |
| NetworkService.DeleteRowRules | backend/api/routes/firewall.py:279-298 | For each protocol of a row whose session works, its DNAT and FORWARD rule are gone, whatever the other session does; otherwise only copies of them are |
| NetworkService.PairsStayGone | backend/services/network_service.py:128-140 | A pair of rules that is gone stays gone while rules are only taken out |
| NetworkService.AddedRulesPresent | backend/services/network_service.py:86-126 | After a successful ADD the gateway has the old rules and the requested ones, and no others |
| NetworkService.DeleteAfterAnyAdd | backend/services/network_service.py:80-152 | Whatever an ADD did, a DELETE that works leaves what purging the starting chains would have left; the start comes back exactly when none of the rules was there |
| NetworkService.OnlyTouchesKeepsRest | backend/services/network_service.py:80-152 | Whatever additions and removals of the requested rules happened, all other rules are there, in order |
| PortPolicy.PortSetsMeet | backend/services/network_service.py:19-34 | The port sets of (base, v) and (base', w) meet exactly when (base + v) - (base' + w) is 0, ±1000 or ±2000 |
| PortPolicy.PortFormula | backend/services/network_service.py:19-34 | Ports can be computed exactly if base + vmid and base + vmid + 2000 lie in 1..65535, and are base + vmid plus 0, 1000 and 2000 |
| PortPolicy.DefaultRulesAre | backend/services/network_service.py:176-194 | The default rules, one by one: exactly these four pairs, none restricted to a source |
| PortPolicy.DefaultRowsAre | backend/services/vm_service.py:541-556 | The default rows, field by field: exactly these three |
| PortPolicy.RowRulesAre | backend/services/network_service.py:262-265 | A row of one protocol stands for one DNAT and one FORWARD rule, in that protocol |
| PortPolicy.DefaultRowsCarryDefaultRules | backend/services/vm_service.py:541-556 | The rules derived from the default rows, source normalized and tcp/udp split, are those manage_iptables adds, in order |
| PortPolicy.DefaultRulesDistinct | backend/services/network_service.py:176-194 | The eight default rules are pairwise distinct |
| Allocation.SelectVmid | backend/services/vm_service.py:106-121 | The least of 50 VMIDs that neither the database has on the node, nor Proxmox, nor an external port of any row stands against; found exactly if the first VMID that is not taken is free; 507 exactly if all 50 are taken |
| Allocation.PortsMeet | backend/services/vm_service.py:98-104 | The database has no objection to a VMID exactly if none of its three ports is in use |
| Allocation.AllocateInternalIp | backend/services/vm_service.py:161-175 | The least address of 100..254 that is not in use; 507 exactly when all are |
| Allocation.IpStepKeeps | backend/services/vm_service.py:130-175 | No step of a creation or deletion breaks that committed addresses are distinct, in range, and covered by what the lock's holder read |
| Allocation.HolderHasRead | backend/services/vm_service.py:130-164 | A transaction holds the lock exactly while it knows which addresses are used |
| Allocation.AddressesStayDistinct | backend/services/vm_service.py:130-175 | Under every interleaving of reserving transactions and deletions, committed addresses stay pairwise distinct and in range |
| Allocation.ReadUnderLock | backend/services/vm_service.py:130-164 | What a transaction goes by is what was committed when it was granted the free lock, which it has held ever since |
| Allocation.CommittedAddressIsLeast | backend/services/vm_service.py:161-170 | A committed address is new, and the least free one of the database as it stood when its transaction was granted the lock, held without interruption until the commit |
| Allocation.WholeTransaction | backend/services/vm_service.py:130-175 | A transaction that nobody disturbs commits its row with the least free address and frees the lock; with the range full nothing changes |
| Allocation.OthersWait | backend/services/vm_service.py:130-164 | While a transaction holds the lock, no other gets in; a rollback frees it and gives nothing out |
| VmService.Choose | backend/services/vm_service.py:407-519 | A request gets through exactly if the quota, the VMID search and the address range let it, with the first VMID that looks free and the least free address |
| VmService.AdmissibleMeans | backend/services/vm_service.py:407-519 | While Proxmox answers, a VM is given to anyone for whom one of fifty VMIDs and one address are left, to an ordinary user only with at most one VM so far |
| VmService.Reserve | backend/services/vm_service.py:512-558 | The reservation is committed exactly if the request gets through and the commit takes effect, and adds one VM to its owner's |
| VmService.Prepare | backend/services/vm_service.py:574-616 | The clone is complete exactly if every call worked and Proxmox did not have the VMID; a VMID it has leaves all machines as they are; what machine is left behind otherwise |
| VmService.Publish | backend/services/vm_service.py:618-640 | Rules, start and ready in this order: ready is committed only after forwarding and start worked |
| VmService.Build | backend/services/vm_service.py:563-640 | The whole try block: exactly when it succeeds, and what each system holds in every other case |
| VmService.CleanUp | backend/services/vm_service.py:181-243 | The machine goes only if its clone was acknowledged, the rules only if manage_iptables reported them added, the record always; each only as far as its calls go through |
| VmService.Provision | backend/services/vm_service.py:560-672 | From the committed reservation on: a complete VM, or each system restored exactly under the stated conditions |
| VmService.CreateVm | backend/services/vm_service.py:382-672 | create_vm is atomic up to cleanup: a created VM has its row ready with the chosen VMID and address, also in the last commit, its three port rows, clone, specification and start, and all four forwarded pairs; after a failure machines, rows and rules are each as before exactly under stated conditions on the calls; machines that were there are never touched at any step, even if the search saw an outdated list, because Proxmox refuses the clone and cleanup depends on its acknowledgement; ready is never committed before the start; the quota holds and nothing is given out twice |
| VmService.Attempt | backend/services/vm_service.py:382-672 | The same operation with the choice it made: which of three states the tables are in, and how the creation ended |
| VmService.HowItEnds | backend/services/vm_service.py:560-672 | If every call works the VM is created; if one fails it is not, and when all calls of the cleanup work nothing is left, unless the clone's reply was lost; a machine that was there already stays |
| VmService.ReservedIs | backend/services/vm_service.py:524-557 | The reservation, field by field: one row, not ready, and three port rows by the formula; marking it ready changes only that |
| VmService.CreationTables | backend/services/vm_service.py:512-640 | Each of the three states keeps ports, VMIDs and addresses distinct and the owner within the quota |
| VmService.FailureLeavesNoTrace | backend/services/vm_service.py:654-672 | If the cleanup calls go through, the clone's reply was not lost and none of the rules was there before, a failed creation leaves the world as it was |
| VmService.LostCloneLeavesMachine | backend/services/vm_service.py:574-575 | When the clone's reply is lost and all else works, rows and rules are restored and the machine is not |
| VmService.LostCloneIsReachable | backend/services/vm_service.py:574-575 | An input for that: the first creation ever, with every other call working |
| VmService.OthersKept | backend/services/vm_service.py:202-234 | Machines that were there before a creation stay, unchanged |
| VmService.DropUndoesReserve | backend/services/vm_service.py:181-187 | Dropping the record and its port rows undoes the reservation exactly |
| VmService.ReserveOwned | backend/services/vm_service.py:524-537 | A reservation adds exactly one VM to its owner's, and marking it ready none |
| VmService.ReservedPortsDistinct | backend/services/vm_service.py:98-121 | A reservation keeps external ports pairwise distinct and in 1..65535 over all rows, because the search refuses a VMID whose ports are in use |
| VmService.ReservedVmsDistinct | backend/services/vm_service.py:98-175 | A reservation keeps VMIDs of a node and internal addresses pairwise distinct |
| VmService.CreationKeepsConsistent | backend/services/vm_service.py:512-640 | Every state a creation commits keeps ports, VMIDs and addresses distinct |
| VmService.MarkAndDropKeepDistinct | backend/services/vm_service.py:181-187 | So do marking a VM ready and dropping its record, the only other states create_vm and delete_vm commit |
| VmService.DeleteVm | backend/services/vm_service.py:677-762 | The machine first: the record and exactly its own port rows go only if the machine's removal was acknowledged, and do go if the commit works too and the default ports are known; the rules of each row and protocol whose session works are gone, and those of the formula for a VM without default rows; the gateway loses only copies of the VM's rules; nothing is given out twice |
| VmService.DeleteRules | backend/services/vm_service.py:707-731 | Rules of all rows, and of the formula if no default row is left; stopped exactly by an impossible port in that fallback |
| VmService.DeleteAllRowRules | backend/services/vm_service.py:710-727 | All rows' rules are gone if every session works; in any case only copies of them |
| VmService.ReservedRows | backend/services/vm_service.py:708-709 | After a creation the query for the VM's port rows answers with the three default rows |
| VmService.CreateThenDelete | backend/services/vm_service.py:706-731 | Create then delete brings the gateway back, in whatever order the rows are read, exactly when none of the rules was there before |
| Firewall.ApplyKeepsUniquePorts | backend/api/routes/firewall.py:126-258 | External ports stay pairwise distinct and in 1..65535 under every operation |
| Firewall.ApplyRules | backend/api/routes/firewall.py:126-303 | Exactly which rules the gateway has after each operation |
| Firewall.ApplyKeepsBacked | backend/api/routes/firewall.py:126-303 | An operation leaves a forwarding rule without a row behind it exactly if it is a restoration whose commit fails after one of its gateway calls has worked |
| Firewall.OrphanRule | backend/api/routes/firewall.py:251-256 | A restoration of that kind leaves a DNAT rule that no row names |
| Firewall.OrphanRuleIsReachable | backend/api/routes/firewall.py:251-256 | That happens from an empty table and an empty gateway |
| Firewall.ApplyKeepsDnatExact | backend/api/routes/firewall.py:126-303 | DNAT rules stay exactly the image of the rows exactly if the last commit of an addition or deletion goes through, and a restoration keeps just the rows whose calls worked |
| Firewall.DnatBroken | backend/api/routes/firewall.py:126-303 | Otherwise some row is without its DNAT rule, or some such rule without a row |
| Firewall.UnsavedRestoreBreaks | backend/api/routes/firewall.py:251-256 | From any state in agreement, a restoration whose commit fails after a call has worked breaks it |
| Firewall.UnsavedDeleteBreaks | backend/api/routes/firewall.py:300-303 | From any state in agreement, deleting a port of a VM with an address and a failing commit leaves the row without rules |
| Firewall.UnremovedRowIsReachable | backend/api/routes/firewall.py:169-181 | From an empty state, an addition that the gateway refuses and whose row the next commit fails to take back leaves that row |
| Firewall.ApplyKeepsForwardExact | backend/api/routes/firewall.py:126-303 | FORWARD rules stay exact under the same conditions, except that a rule another row also stands for may be there without the own row's call, and must not go with a deleted row |
| Firewall.TwinMeans | backend/services/network_service.py:262-265 | A FORWARD rule has a row behind it exactly if a row agrees in address, internal port and normalized source and has the protocol |
| Firewall.NoSharingSuffices | backend/api/routes/firewall.py:126-303 | Where no two rows share a rule, what keeps the DNAT rules exact keeps the FORWARD rules exact |
| Firewall.ShareForwardMeans | backend/services/network_service.py:262-265 | Two rows back a common FORWARD rule exactly if they agree in address, internal port and normalized source and have a protocol in common |
| Firewall.SharingIsWithinOneVm | backend/services/network_service.py:262-265 | With distinct addresses only ports of one VM can share a rule |
| Firewall.SharedRuleIsLost | backend/api/routes/firewall.py:279-303 | Adding two ports that differ only in their external port and deleting the first takes the rule from the second |
| Firewall.SharedRuleLossIsReachable | backend/api/routes/firewall.py:279-303 | That happens from an empty table and an empty gateway |
| Firewall.ApplyKeepsForeigns | backend/api/routes/firewall.py:126-303 | No port operation adds, removes or reorders a gateway rule that forwards no port |
| Firewall.RunKeepsBacked | backend/api/routes/firewall.py:126-303 | Over every run with failing gateway calls and commits: ports unique, and every forwarding rule backed by a row as long as no restoration loses its rows to a failing commit |
| Firewall.RunKeepsDnatExact | backend/api/routes/firewall.py:126-303 | Over every run whose operations meet the condition of ApplyKeepsDnatExact: DNAT rules are exactly those of the rows |
| Firewall.RunKeepsForwardExact | backend/api/routes/firewall.py:126-303 | Over every run whose operations meet the condition of ApplyKeepsForwardExact: FORWARD rules are exactly those of the rows |
| Firewall.RunWithoutSharing | backend/api/routes/firewall.py:126-303 | Over every run in which no two rows share a rule, and whose operations keep the DNAT rules, both kinds are exact |
| Firewall.RunKeepsForeigns | backend/api/routes/firewall.py:126-303 | Nor does any run of them |
| GatewayAgreement.NewRulesAbsent | backend/services/vm_service.py:153-175 | A new address has no rules on the gateway yet |
| GatewayAgreement.FailedCreationRestores | backend/services/vm_service.py:654-672 | So a failed creation whose cleanup goes through leaves no trace, without a condition on the rules |
| GatewayAgreement.AfterCreate | backend/services/vm_service.py:541-621 | A creation, whole, partial or rolled back, changes rules and rows of its own VM only |
| GatewayAgreement.AfterDelete | backend/services/vm_service.py:706-753 | A deletion, whatever fails, takes away only the VM's own rules and rows |
| GatewayAgreement.ApplyKeepsInv | backend/services/vm_service.py:541-753 | Ports unique, addresses distinct and a row behind every forwarding rule survive an event exactly if a creation that leaves rules leaves its rows, a deletion that drops rows has removed their rules, and a port operation meets its own condition |
| GatewayAgreement.ApplyKeepsDnatExact | backend/services/vm_service.py:541-753 | DNAT rules stay exact exactly if the VM's own are there just when its rows are |
| GatewayAgreement.ApplyKeepsForwardExact | backend/services/vm_service.py:541-753 | The same for FORWARD rules |
| GatewayAgreement.RunKeepsInv | backend/services/vm_service.py:541-753 | Over every run that mixes port operations with creations and deletions, failing and rolled back ones included, and leaves no rule without a row: ports and addresses are given out once and every forwarding rule is backed |
| GatewayAgreement.RunKeepsDnatExact | backend/services/vm_service.py:541-753 | Over every such run whose events keep their own DNAT rules in step, DNAT rules are exactly those of the rows |
| GatewayAgreement.RunKeepsForwardExact | backend/services/vm_service.py:541-753 | Over every such run whose events keep their own FORWARD rules in step, so are FORWARD rules |
| GatewayAgreement.CreationIsEvent | backend/services/vm_service.py:512-672 | Whatever create_vm does after its reservation is such an event: a completed creation keeps the agreement with rows and rules, one that restores everything keeps it with neither |
| GatewayAgreement.DeletionIsEvent | backend/services/vm_service.py:677-762 | Whatever delete_vm does is such an event: one whose sessions all work keeps the agreement, and one that is refused changes nothing |
| GatewayAgreement.LeftoverBreaks | backend/services/vm_service.py:723-727 | Deleting a VM while the gateway cannot be reached leaves rules without rows |
| GatewayAgreement.LeftoverRulesAreReachable | backend/services/vm_service.py:723-727 | That happens from an empty world |
| Firewall.PortEndpoints.AllocateRandomPort | backend/services/network_service.py:225-233 | The first of up to a hundred draws that no row uses; an error exactly if all are in use |
| Firewall.PortEndpoints.TryAdd | backend/services/network_service.py:266-293 | An ADD adds what is missing, or nothing at all if it fails and compensates |
| Firewall.PortEndpoints.AddCustomPort | backend/api/routes/firewall.py:115-189 | Each answer with its exact cause; on success the row is the only change of the table, and the gateway has one DNAT and one FORWARD rule for it, restricted to the given source unless that means everywhere, and nothing else new; the row is taken back when the gateway call fails, unless that commit fails too |
| Firewall.PortEndpoints.SavePort | backend/api/routes/firewall.py:156-189 | The same from the first commit on |
| Firewall.PortEndpoints.OpenPort | backend/services/network_service.py:236-293 | The gateway call: True exactly if the session can add the two rules, and then they are there, with the source as given |
| Firewall.PortEndpoints.DeleteCustomPort | backend/api/routes/firewall.py:262-304 | The row goes whatever the gateway says, if the commit goes through, and no other row changes; for each protocol whose session works its DNAT and FORWARD rule are gone, and only copies of its rules otherwise |
| Firewall.PortEndpoints.RestoreDefaultPorts | backend/api/routes/firewall.py:193-258 | Nothing to do and conflict leave everything as it was; otherwise a call worked exactly if its session could add the rules to the chains it met, and then that port is forwarded by the formula; exactly the rules of those calls are added, and exactly the default rows that were missing, field by field, if the commit goes through |
| Firewall.PortEndpoints.RestoreMissing | backend/api/routes/firewall.py:227-256 | The same after the checks |
| Firewall.HasDefaultsMeans | backend/api/routes/firewall.py:208-216 | Nothing is missing exactly if the VM has a default row for each of 22, 80 and 10000 |
| Firewall.MissingAre | backend/api/routes/firewall.py:203-213 | The missing rows, field by field: one for each of these ports without a default row |
| Firewall.RestoredAre | backend/api/routes/firewall.py:227-256 | The table after a restoration: the old rows and exactly those |
| Firewall.AllForwarded | backend/api/routes/firewall.py:239-248 | Every call that worked has its port forwarded to the VM by the formula |
| Firewall.PortEndpoints.InstallRestored | backend/api/routes/firewall.py:227-250 | A VM without an address gets no rules; otherwise the calls that worked are exactly those whose sessions could, on the chains they met |
| Firewall.PortEndpoints.SaveRestored | backend/api/routes/firewall.py:251-256 | Saving the missing rows keeps external ports unique |
| Firewall.RestorePossible | backend/api/routes/firewall.py:217-225 | If no wanted port is in use, the rows can be added without a port conflict |
| Firewall.PortEndpoints.AddRestored | backend/api/routes/firewall.py:227-250 | A call worked exactly if its session could add the rules to the chains it met; with compensating sessions these are the chains left by the earlier calls that worked |
| Firewall.PortEndpoints.AddProtocolRules | backend/api/routes/firewall.py:240-250 | The same for the protocols of one row |
| CaddyService.AddRoute | backend/services/caddy_service.py:32-63 | A successful add puts its route in front, in place of a leftover copy, and sends its own host to its target; whatever fails, the inner delete included, every other host keeps its destination |
| CaddyService.DeleteRoute | backend/services/caddy_service.py:66-79 | A delete that takes effect takes out one copy of the route, another one nothing; in any case no other host's destination changes |
| CaddyService.AddKeepsOthers | backend/services/caddy_service.py:32-63 | Prepending the host's route preserves the first-match meaning of all others, and shadows the catch-all |
| CaddyService.DeleteKeepsOthers | backend/services/caddy_service.py:66-79 | Removing a route by id preserves the meaning of all other hosts, whichever of several copies goes |
| CaddyService.DeleteRemovesOne | backend/services/caddy_service.py:66-79 | A delete that takes effect removes one copy of the route, if there is one |
| CaddyService.NamesInjective | backend/services/caddy_service.py:24-40 | Different subdomains have different route ids and different domains |
| HttpsGateway.ApplyKeepsInv | backend/api/routes/https_gateway.py:57-116 | An operation keeps every row with caddy_synced going to its own VM and port, exactly unless a commit fails after the route of such a row has been taken out to the detriment of its host |
| HttpsGateway.SyncedRowsAreServed | backend/api/routes/https_gateway.py:57-116 | Over every run with any failed or reply-lost call, and any failed commit that does no such harm: each row with caddy_synced dispatches to its own VM address and port |
| HttpsGateway.SavedIsHarmless | backend/api/routes/https_gateway.py:57-116 | A commit that goes through does no harm |
| HttpsGateway.RemoveIsHarmless | backend/api/routes/https_gateway.py:110-115 | A failed commit of a removal does no harm exactly if the row was not synced, the proxy deleted nothing, or another route sends the host to the same place |
| HttpsGateway.DeleteVmIsHarmless | backend/services/vm_service.py:733-757 | A failed commit of a VM's deletion does no harm exactly if, for each of its rows, the row was not synced, the proxy deleted nothing, or another route left by the earlier deletions sends the host to the same place |
| HttpsGateway.ServiceIsLost | backend/api/routes/https_gateway.py:110-115 | From an empty state, adding a route and deleting it with a commit that fails leaves a row with caddy_synced that no route serves |
| HttpsGateway.RouteEndpoints.AddHttpsRoute | backend/api/routes/https_gateway.py:44-88 | Each answer with its exact cause; the row stays, marked synced exactly if the route was confirmed and the mark committed |
| HttpsGateway.RouteEndpoints.DeleteHttpsRoute | backend/api/routes/https_gateway.py:92-116 | The row goes whatever the proxy says, if the commit goes through; synced rows stay served exactly if a failed commit does no harm |
| HttpsGateway.RouteEndpoints.DeleteRoutesOfVm | backend/services/vm_service.py:733-746 | Deleting a VM takes out all its rows and disturbs no other row's service; with a failed commit synced rows stay served exactly if no single deletion harms its row |
| VmExpiry.WindowsPartition | backend/main.py:166-267 | Far, soon, grace and delete windows partition all expiring VMs, and time only moves a VM forward through them |
| VmExpiry.VmTable.Extend | backend/api/routes/vmcontrol.py:456-485 | Extension works exactly with less than eight days left, moves the expiry by fourteen days and changes nothing else, and takes a VM in its grace period more than eleven days past now |
| VmExpiry.VmTable.Control | backend/api/routes/vmcontrol.py:488-555 | Power control of an incomplete or (for non-admins starting it) expired VM is refused, and a refusal switches nothing; on success a start leaves the machine running, a stop or shutdown leaves it off, a reboot as it was, and no other machine changes |
| VmExpiry.LifeOfAVm | backend/services/vm_service.py:520-535 | A USER's VM is created for seven days and others without an end; it can be used once built; a removed VM is gone, and others never change |
| VmExpiry.LeasesAreBounded | backend/api/routes/vmcontrol.py:466-479 | Over every run a USER's VM has less than 22 days left, and k extensions satisfy 14k < days since creation + 15 |
| VmExpiry.DeletedOnlyWhenDue | backend/main.py:228-243 | Over every run the loop deletes only VMs expired for at least three days |
| VmExpiry.StopsExtendedVms | backend/main.py:166-207 | A stop hits a VM outside the grace window exactly when its expiry has changed since the pass listed it |
| VmExpiry.ExtendedIsStopped | backend/main.py:202-209 | From any state with a VM in its grace period a run stops that VM after its extension, with more than eleven days left |
| VmExpiry.ExtendedStopIsReachable | backend/main.py:202-209 | Such a run starts from an empty table |
| VmExpiry.ExtensionProtects | backend/api/routes/vmcontrol.py:466-479 | An extension before the deletion window keeps the VM from being deleted for eleven days, also by a pass already under way |
| VmExpiry.ExpiredStaysOff | backend/api/routes/vmcontrol.py:511-519 | Over every run an expired machine that is complete and off stays off until an extension or an administrator's start |
| NodeStatsCache.RunKeepsInv | backend/api/routes/monitoring.py:25-58 | Under every interleaving: one holder per lock, cache entries are each node's latest finished fetch, fetches serial and spaced, returned values fresh |
| NodeStatsCache.ValuesAreRecent | backend/api/routes/monitoring.py:32-36 | Under every interleaving a returned value is of a fetch of the same node under the same identity, finished less than 30 s before |
| NodeStatsCache.FetchesAreSpaced | backend/api/routes/monitoring.py:31-58 | Fetches of one node never overlap, and consecutive ones are at least 30 s apart unless the identity changed |
| OAuthStores.Stores.Cleanup | backend/api/routes/oauth.py:48-59 | Exactly the expired entries of both stores go, and the others stay as they are |
| OAuthStores.Stores.Authorize | backend/api/routes/oauth.py:87-93 | A state is admitted exactly if at most 1000 live ones are pending, and is then stored with its verifier, role and expiry; the expired ones go in any case |
| OAuthStores.PendingIsBounded | backend/api/routes/oauth.py:87-93 | Over every run there are never more than 1001 pending states |
| OAuthStores.Stores.Callback | backend/api/routes/oauth.py:116-122 | The state is gone afterwards; the caller gets what was stored for it exactly if it was there and had not expired |
| OAuthStores.Stores.Exchange | backend/api/routes/oauth.py:286-294 | The code is gone afterwards; the caller gets the tokens stored for it exactly if it was there and had not expired |
| OAuthStores.CleanupIsInvisible | backend/api/routes/oauth.py:48-59 | Whatever cleanups are interleaved, those of authorizations included, every callback and exchange is answered as in the run without any that lets the same authorizations through |
| OAuthStores.HonouredOnce | backend/api/routes/oauth.py:116-122 | In every run each state and each code is honoured at most once |
| OAuthStores.HonouredInTime | backend/api/routes/oauth.py:286-294 | A token is honoured only within its lifetime from the moment it was issued, in every run |
| OAuthStores.HonouredMeansAnswered | backend/api/routes/oauth.py:116-122 | Honoured means that the caller is told what was stored, and not honoured that it is told nothing |
| OAuthStores.LoginGetsThrough | backend/api/routes/oauth.py:87-122 | Over every run, a callback within five minutes of its admitted authorization, and the first one on it, is told that verifier and role |
| OAuthStores.TokensGetThrough | backend/api/routes/oauth.py:271-294 | Over every run, an exchange within a minute of the issue of its code, and the first one, is told the access and the refresh token that were issued, each in its own place |
| CloneStorage.SelectCloneStorage | backend/services/mon_service.py:67-136 | An eligible candidate of maximal avail, the earliest among ties; 507 exactly when none is eligible; 503 exactly when the node does not answer |
| CloneStorage.RightChoiceIsPick | backend/services/mon_service.py:87-130 | That description has exactly one answer |
| CloneStorage.OnlyEligibleMatter | backend/services/mon_service.py:91-130 | Adding, dropping or changing ineligible candidates does not change the choice |
| CloneStorage.ListOrderIrrelevant | backend/services/mon_service.py:84-84 | The order of a storage list with distinct names does not matter |
| CloneStorage.GetCloneStorages | backend/core/config.py:142-149 | The list of the first node of that name; nothing for unknown or empty names |
| CloneStorage.DedupeIsDistinct | backend/core/config.py:148-148 | Deduplication leaves each name once |
| CloneStorage.ParseRoundTrip | backend/core/config.py:142-149 | Parsed names are distinct and clean, and joining them with commas and parsing again gives the same list |
| CloneStorage.ParseMembers | backend/core/config.py:147-148 | Every non-empty name between two commas is in the list, without the space around it, and nothing else is |
| CloneStorage.StripMeans | backend/core/config.py:147-147 | Stripping takes away the space on either side and nothing else |
| NotifySchedule.NextNotifySleep | backend/main.py:56-65 | For any non-empty list of hours in any order the wait is more than 0 and at most 24 hours, lands on a listed hour, and passes none |
| NotifySchedule.SameTarget | backend/main.py:56-65 | The moment is determined, whatever the order of the list, and asking again on the way aims at the same one |

## Left out

- HTTP, sessions, SSH, Proxmox, mail and chat libraries: only the outcomes of their calls appear.
- Exactly one VM per job: false after a crash, see `QueueQuota.CrashMidJob`.
- Liveness across an in-process stop and start: a sentinel can stay in the queue when the worker leaves
  by the stop flag. `QueueService.Service.WorkerLoop` says what a worker does that is left alone.
- Errors of the queue's own database calls: the failure handler writes FAILED without looking at the
  old status, so terminal states are only final while these calls do not raise.
- A crash inside a recovery, before its commit: it repeats the recovery from the same rows.
- QueueService.Service.WorkerLoop: outcomes of creations are inputs, and all carry one time stamp; the
  contracts do not depend on it.
- Interleavings of allocations, of callers of the node statistics, and of extensions with the hourly
  pass are state machines on values; the methods beside them run undisturbed.
- The fallback lock for databases other than PostgreSQL, whose release hooks depend on the library.
- Role, node, tier and resource checks of create_vm, the choice of the server, the storage lookup and
  the first VMID from Proxmox: together they are the input `CreateFaults.first`, absent if one refuses.
- The waiting loops (clone task, machine locks) are inputs that say how they end.
- Snippet files, generated names, passwords and notifications.
- GatewayAgreement takes each creation and deletion as one event with any outcome; port operations on a VM
  whose creation or deletion is under way are not interleaved with its steps.
- VmService.CreateVm: runs undisturbed by a deletion of its own row or machine, which the delete endpoint
  does not rule out, and by other changes to the tables; only the list of VMIDs that the search saw may
  be out of date.
- Deletion of the HTTPS routes inside delete_vm is modelled apart from the rest of delete_vm, as
  `HttpsGateway.RouteEndpoints.DeleteRoutesOfVm`.
- Storage usage is compared as an exact ratio instead of a floating-point percentage; the content
  field of a storage is reduced to whether it lists images; strip() knows ASCII space only.
- Rounding and rendering of node statistics, and the copy made of a cached value.
- Passwords, tokens' contents and the PKCE challenge (section 4.2 of RFC 7636).
- Sign-up, notifications, snapshots (a rollback may start a machine), metrics, serverless functions:
  record keeping or thin wrappers.
