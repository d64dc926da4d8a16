# Verified models of the device support code

This project models the parts of the repository whose behaviour is decided by code, as opposed to
by configuration, and proves what they are for.  It is written in Dafny 4.11; `dafny verify
dfyconfig.toml` checks all of it.

What is modelled:

- The recovery updater's Boyer-Moore search (`BoyerMoore`).  The scan returns the first occurrence
  for every text if and only if the pattern is `Safe`; every border-free pattern is, and so is the
  baseband version prefix that the updater searches for.  The table construction tests for a prefix
  at `p` but records `p + 1`, so other patterns can be missed; `ABA` is.
- The LAN-to-LAN offload controller (`LanToLan`, over `LanBook`, `LanClients`, `LanLinks`,
  `LanDown`, `LanEvents`).  After every run of interface and client events the hardware holds
  exactly what the logical network wants: one processing context per interface and peer header
  type, the routing rules of each client for each peer header type, one filtering rule per client
  of a peer and assigned address type, and the intra-interface ones.  The target is declared
  without peer records, reference counts or handles, and `LanHistory` reads the network off the
  list of events: which interfaces are up, with which addresses and clients.
- The GPS timer service (`TimerService`), a transition system of clients, message thread, poll
  thread and kernel timer, over the heap of `HeapTree` (values) and `LocHeap` (linked nodes);
  `TimerHistory` tells its runs by the actions taken.
- The NAT connection cache and the hardware NAT table (`NatCache`).  What the hardware is asked, and
  what it answers, is recorded, so that a connection is dropped only when its own rule is refused.
- The Ethernet client table (`EthClients`), the resource-manager dependencies (`RmDepend`), the
  event queues and listeners (`EventQueue`), the GPS message queue and its list (`MsgQueue`,
  `LinkedList`), and the lifetime of a thread delegate (`ThreadLifetime`).

Code that changes objects in place is modelled by classes and arrays whose methods are proved
against value-level specifications; code shared by threads is modelled as steps that
interleave freely.  Hardware is a small abstract state: a table of objects under handles.  `Common`
holds the types that several parts share.

Where a property does not hold of the code, the exact condition under which it does is proved, with
a concrete run or input that breaks it:

- the search finds every first occurrence: `SearchIsExactlyAsSafe`, broken by `AbaIsMissed`;
- a timer is called back only when it is due: `ExpirePopsDueIff` (the top of the heap is due when the
  Expire message is handled) and `CallbackTarget` (which timer is called, and when that is early),
  broken by `StaleWakeupFiresEarly` and `RestartFiresEarly`;
- a client that was announced and then deleted is not a client: `DeletedIsClientIff`, broken by
  `DeletedTooEarly` (a deletion before the interface comes up is ignored, while the announcement is
  kept);
- the runnable of a thread is deleted exactly if `start` returns true: `PromiseKeptByOrder` (on the
  order of the steps) and `PromiseKeptIff` (on what they found), broken by `StoppedTooEarly` and
  `FinishedTooEarly`;
- the modem consumer is up while it has users: `RunTableRightIff`, broken by `ThreeUsersBreak` and
  `EarlyDeletionBreaks`;
- the kernel has exactly the dependencies of the set entries: `RunKernelRightIff`, broken by
  `BypassFlips`;
- no client in power save has a rule in the hardware after the table comes back:
  `RestoringIgnoresSaving`, broken by `TableBreaksSaving` and the run `SavingForgotten`;
- nor after it has entered power save: `NatApp.UpdatePwrSaveIf`, broken by `SavingWithRule`;
- the count of the NAT cache is right after a deletion: `NatApp.DeleteEntry`, broken by
  `ZeroRuleDrifts`;
- the NAT cache and the hardware stay in agreement, and the handle is the one of the live table:
  `NatApp.AddTable` (a failure keeps it exactly if no table was up) and `NatApp.DeleteEntry`, broken
  by the runs `HandleLost` and `RuleLeftBehind`;
- messages leave the GPS queue in the order in which they were accepted: `RunOrderlyIff`, broken by
  `FlushBreaksOrder` (`FirstInFirstOut` holds of the received ones in every run, and
  `FlushIsNewestFirst` says how a flush turns the others round).

Code and documentation disagree in these places, and the model follows the code:

- gps/utils/LocThread.h:73-77 says that the runnable is deleted by the thread if `start` returns
  true and is the caller's otherwise; `PromiseKeptByOrder` says when that is so.
- data-ipa-cfg-mgr/ipacm/src/IPACM_Config.cpp:697 keeps the modem dependency only while exactly one
  user is left, where the log message beside it speaks of users that are left.
- gps/utils/LocTimer.cpp:365 says that only timers older than now are popped; the first pop of an
  Expire message is unconditional, and later pops compare whole seconds.

## Model

| member | source | states |
|---|---|---|
| BoyerMoore.MaxSuffixLen | recovery/recovery_updater.c:44-52 | the longest common suffix of the prefix ending at `p` and the whole string, at most `p` long: it matches, and the byte before it differs unless `p` is reached |
| BoyerMoore.BmMakeDelta1 | recovery/recovery_updater.c:57-66 | every entry of the bad-character table, for all 256 bytes, leads from the last place back to the last such byte before it, and is the pattern length if there is none |
| BoyerMoore.Delta1Bounds | recovery/recovery_updater.c:57-66 | a bad-character entry is between 1 and the pattern length and never beyond any occurrence of the byte |
| BoyerMoore.Delta1Exact | recovery/recovery_updater.c:57-66 | the entry of a byte that does not occur before the last place is the pattern length; otherwise it is the distance of its last occurrence there |
| BoyerMoore.LastPrefixExact | recovery/recovery_updater.c:70-79 | what the prefix test gives is one more than the first place from there on at which it succeeds, and one less than the length if there is none |
| BoyerMoore.AdvanceExact | recovery/recovery_updater.c:69-88 | the good-suffix shift goes to the last reoccurrence, or by the prefix test, over the pattern alone |
| BoyerMoore.ShiftIsLarger | recovery/recovery_updater.c:107-113 | after a mismatch the pattern moves by the larger of the two shifts, as they are defined over the pattern alone |
| BoyerMoore.StrncmpEqIff | recovery/recovery_updater.c:75-78 | the prefix test succeeds exactly if the strings agree up to the end or up to a NUL in both |
| BoyerMoore.BmMakeDelta2 | recovery/recovery_updater.c:69-88 | every entry of the good-suffix table moves the end of the last reoccurrence of the matched suffix after a different byte under the end of the pattern, and is what the prefix test gives if there is no reoccurrence |
| BoyerMoore.FillFromPrefixes | recovery/recovery_updater.c:69-79 | the first loop leaves the entries that the prefix test alone gives |
| BoyerMoore.AdvanceBounds | recovery/recovery_updater.c:69-88 | each good-suffix entry exceeds `m-1-j`, so the scan always moves on, and is at most twice the pattern length |
| BoyerMoore.RightmostIsLargest | recovery/recovery_updater.c:81-87 | the recorded reoccurrence is the rightmost one |
| BoyerMoore.LastPrefixSkips | recovery/recovery_updater.c:72-79 | after the prefix test succeeds first at `q`, the entry records `q + 1`: one more than the border shift |
| BoyerMoore.Delta1SkipsNothing | recovery/recovery_updater.c:57-66 | the bad-character shift never jumps over an occurrence, for every pattern |
| BoyerMoore.Delta2SkipsNothing | recovery/recovery_updater.c:69-88 | the good-suffix shift never jumps over an occurrence, for every safe pattern |
| BoyerMoore.BmSearch | recovery/recovery_updater.c:90-117 | the loop over arrays computes the scan; what it returns is an occurrence, and the first one, or none exists, when the pattern is safe |
| BoyerMoore.ScanFindsFirst | recovery/recovery_updater.c:90-117 | from any alignment before which nothing occurs, the scan of a safe pattern finds the first occurrence or reports that there is none |
| BoyerMoore.ScanFindsOccurrence | recovery/recovery_updater.c:90-117 | for every pattern, safe or not, a reported position is an occurrence |
| BoyerMoore.UnsafeMisses | recovery/recovery_updater.c:72-79 | for every unsafe pattern a text is built in which the pattern occurs and the scan reports nothing |
| BoyerMoore.SearchIsExactlyAsSafe | recovery/recovery_updater.c:90-117 | the search is right on all texts if and only if the pattern is safe |
| BoyerMoore.BorderFreeIsSafe | recovery/recovery_updater.c:69-88 | every border-free pattern is safe |
| BoyerMoore.PrefixTestIsBorderTest | recovery/recovery_updater.c:75-78 | for patterns without NUL the strncmp test is exactly the border test |
| BoyerMoore.BasebandPatternIsSafe | recovery/recovery_updater.c:36-37 | the version prefix that the updater searches for has length 23 and is safe |
| BoyerMoore.AbaIsMissed | recovery/recovery_updater.c:90-117 | a concrete miss: ABA occurs at 2 in A-NUL-ABA and the scan reports nothing |
| HeapTree.CheckIffRankedAndSized | gps/utils/LocHeap.cpp:197-220 | the checker accepts a tree exactly if no item outranks one above it and every size is the node count of its subtree |
| HeapTree.PushChecks | gps/utils/LocHeap.cpp:107-124 | push keeps the checked order and sizes, and the new top is the higher ranked of item and old top |
| HeapTree.PushAddsOne | gps/utils/LocHeap.cpp:107-124 | push adds exactly the item |
| HeapTree.PushBalances | gps/utils/LocHeap.cpp:107-124 | push keeps every node balanced: left size equals right size or is one more |
| HeapTree.PopChecks | gps/utils/LocHeap.cpp:134-164 | pop keeps order and sizes and never raises the rank of the top |
| HeapTree.PopTakesTop | gps/utils/LocHeap.cpp:134-164 | pop removes exactly the top item |
| HeapTree.PopTakesHigherChild | gps/utils/LocHeap.cpp:144-153 | the new top is from the higher ranked child, from the right one if neither is, and the other subtree stays |
| HeapTree.TopIsHighest | gps/utils/LocHeap.cpp:134-164 | nothing in a checked heap outranks its top |
| HeapTree.RemoveIsComplete | gps/utils/LocHeap.cpp:170-193 | removal pruned by rank succeeds exactly if the item is present |
| HeapTree.RemoveTakesOne | gps/utils/LocHeap.cpp:170-193 | removal takes out exactly the item |
| HeapTree.RemoveChecks | gps/utils/LocHeap.cpp:170-193 | removal keeps order and sizes |
| HeapTree.BalancedIsShallow | gps/utils/LocHeap.cpp:107-124 | a balanced heap of n nodes and height h has 2^(h-1) <= n < 2^h |
| HeapTree.PushOnlyHeapIsShallow | gps/utils/LocHeap.cpp:101-124 | a heap built by pushes alone is checked, balanced and of logarithmic height, with exactly the pushed items |
| HeapTree.PopRefinesBag | gps/utils/LocHeap.cpp:245-254 | pop answers as a bag does: a highest-ranked item leaves |
| HeapTree.RemoveRefinesBag | gps/utils/LocHeap.cpp:256-267 | remove answers as a bag does: the item leaves if and only if it is there |
| HeapTree.RunRefinesBag | gps/utils/LocHeap.cpp:228-267 | any sequence of pushes, pops and removals refines a bag of ranked items and keeps the heap checked |
| LocHeap.LocHeapNode.Swap | gps/utils/LocHeap.cpp:88-92 | swaps the data of two nodes and nothing else |
| LocHeap.LocHeapNode.PushNode | gps/utils/LocHeap.cpp:107-124 | the linked push changes the nodes exactly as the push on trees |
| LocHeap.LocHeapNode.PopNode | gps/utils/LocHeap.cpp:134-164 | the linked pop changes the nodes exactly as the pop on trees and hands back the node with the old top data |
| LocHeap.LocHeapNode.RemoveNode | gps/utils/LocHeap.cpp:170-193 | the linked removal does exactly what the removal on trees does, and changes nothing when the item is not found |
| LocHeap.LocHeap.PushItem | gps/utils/LocHeap.cpp:228-235 | the contents become the pushed tree |
| LocHeap.LocHeap.Peek | gps/utils/LocHeap.cpp:237-243 | none exactly if the heap is empty; otherwise an item that nothing outranks |
| LocHeap.LocHeap.PopItem | gps/utils/LocHeap.cpp:245-254 | contents and result are those of the pop operation |
| LocHeap.LocHeap.RemoveItem | gps/utils/LocHeap.cpp:256-267 | contents and result are those of the remove operation |
| TimerService.StepKeeps | gps/utils/LocTimer.cpp:281-381 | every step of clients, message thread, poll thread and kernel keeps the service invariant |
| TimerService.RunKeeps | gps/utils/LocTimer.cpp:281-381 | the invariant holds over every run |
| TimerService.NoTimerIsLost | gps/utils/LocTimer.cpp:281-381 | while a timer waits, the kernel is polled and armed for the exact time of the top, or an Expire message is queued, or a thread is in the middle of acting on it; the top is due less than a second after any other timer |
| TimerService.DueTimersAreServed | gps/utils/LocTimer.cpp:281-390 | however the service steps interleave, at most a stated number of them follow one another before the service rests, and then every timer that is a second or more overdue has been called back or stopped |
| TimerService.ReachableTracks | gps/utils/LocTimer.cpp:281-390 | in every run a timer that has not ended is still to be pushed, or in the heap, or about to be called back |
| TimerService.RemovePollIsDead | gps/utils/LocTimer.cpp:288-294 | the branch that stops polling when the heap empties is never taken |
| TimerService.EachStartEndsAtMostOnce | gps/utils/LocTimer.cpp:485-575 | each start sends one Push, one Remove exactly if it ended, and is called back at most once and only if that is how it ended |
| TimerService.StepKeepsOutcomes | gps/utils/LocTimer.cpp:542-575 | how a start has ended is never changed by a step |
| TimerService.OutcomeIsFinal | gps/utils/LocTimer.cpp:485-575 | a stopped timer is never called back and a called-back one never counts as stopped, over every run |
| TimerService.FreedIsForgotten | gps/utils/LocTimer.cpp:328-350 | a freed delegate has ended, is in no queue and not in the heap, belongs to no client, and is never touched |
| TimerService.CallbackTarget | gps/utils/LocTimer.cpp:515-527 | the callback is for the popped timer exactly if that has not ended, and then early exactly if the message found the top not due; it is for a later timer of the client exactly if the client has ended the popped one and holds another, which was then started after the message took its time and is early exactly unless due within that same second; otherwise nobody is called |
| TimerService.EarlyCallbacks | gps/utils/LocTimer.cpp:355-390 | of all callbacks ever made, one to the popped timer was early exactly if its message found the top of the heap not due, and is otherwise less than a second early; any other went to a later start of the same client, made after the message took its time, and was early exactly unless due within that same second |
| TimerService.ExpirePopsDueIff | gps/utils/LocTimer.cpp:355-373 | every timer that an Expire message pops is due when it is handled if and only if the top of the heap is; if the top is not, it is popped and no other is |
| TimerService.ExpireIsOrdered | gps/utils/LocTimer.cpp:355-390 | pops of one Expire message come in non-decreasing seconds |
| TimerService.ExpireIsThorough | gps/utils/LocTimer.cpp:355-390 | after the first pop only timers due to the second are popped, and at the end every timer left is due in a later second |
| TimerService.StaleWakeupFiresEarly | gps/utils/LocTimer.cpp:367-369 | a run in which a wake-up for a stopped timer pops and calls back a later one |
| TimerService.RestartFiresEarly | gps/utils/LocTimer.cpp:515-527 | a run in which a client restarts between the two reads and the new timer is called back at once |
| TimerHistory.IdleRequestsIff | gps/utils/LocTimer.cpp:542-575 | a start by a client that holds a timer and a stop by one that holds none leave the whole state as it was, and no other request does |
| TimerHistory.HeldIffRequested | gps/utils/LocTimer.cpp:515-575 | in every run a client holds a timer exactly if its last request was a start and it has not been called back since |
| TimerHistory.StartedIffRequested | gps/utils/LocTimer.cpp:542-560 | in every run the starts recorded are exactly those by clients that hold no timer, each due as many milliseconds after it was made as it says |
| TimerHistory.ExpireOnlyWhenDue | gps/utils/LocTimer.cpp:376-381 | in every run each Expire message was sent by one send of the poll thread, each of those after one wake-up, and each wake-up found the kernel timer polled, armed for a timer that was started, and due |
| NatCache.HardwareIsExactlyEnabled | data-ipa-cfg-mgr/ipacm/src/IPACM_Conntrack_NATApp.cpp:129-398 | a rule is in the hardware under a handle exactly if one enabled slot holds it under that handle; handles are not shared |
| NatCache.CountUpdate | data-ipa-cfg-mgr/ipacm/src/IPACM_Conntrack_NATApp.cpp:254-398 | the number of occupied slots changes by what one slot write adds or takes |
| NatCache.FirstFreeIsFirst | data-ipa-cfg-mgr/ipacm/src/IPACM_Conntrack_NATApp.cpp:325-341 | the slot taken is the first unused one |
| NatCache.WithdrawingRespectsSaving | data-ipa-cfg-mgr/ipacm/src/IPACM_Conntrack_NATApp.cpp:553-600 | withdrawing the rules of a client keeps the promise that no saving client has a rule installed |
| NatCache.RestoringIgnoresSaving | data-ipa-cfg-mgr/ipacm/src/IPACM_Conntrack_NATApp.cpp:129-189 | bringing the table back keeps that promise, whatever the hardware answers, exactly if no connection of a saving client is cached beforehand |
| NatCache.TableBreaksSaving | data-ipa-cfg-mgr/ipacm/src/IPACM_Conntrack_NATApp.cpp:129-189 | a cached connection of a saving client is installed when the table comes back |
| NatCache.SavingForgotten | data-ipa-cfg-mgr/ipacm/src/IPACM_Conntrack_NATApp.cpp:129-229 | a run of calls on a new object, from the first table to a down and up of it, that breaks the promise whenever the hardware accepts the calls |
| NatCache.ZeroRuleDrifts | data-ipa-cfg-mgr/ipacm/src/IPACM_Conntrack_NATApp.cpp:254-293 | deleting an all-zero rule from an empty cache makes the count -1 |
| NatCache.NatApp.constructor | data-ipa-cfg-mgr/ipacm/src/IPACM_Conntrack_NATApp.cpp:55-127 | the cache starts unused and in agreement with an empty hardware |
| NatCache.NatApp.AddTable | data-ipa-cfg-mgr/ipacm/src/IPACM_Conntrack_NATApp.cpp:129-189 | a failure clears the handle and changes nothing else, and so keeps cache and hardware in agreement with the handle exactly if no table was up; with the previous address every cached rule is asked for and goes by its own answer, with another one the hardware is asked for nothing |
| NatCache.HandleLost | data-ipa-cfg-mgr/ipacm/src/IPACM_Conntrack_NATApp.cpp:129-229 | a run on a new object: the WAN goes down with another address, which is refused, and comes up again; the driver has then cleared the handle (ipa_nat_drvi.c:641-690), the table is up with its rule, and no table can be added or deleted and no connection added |
| NatCache.SavingWithRule | data-ipa-cfg-mgr/ipacm/src/IPACM_Conntrack_NATApp.cpp:553-600 | after that a client that enters power save keeps its rule in the hardware |
| NatCache.RuleLeftBehind | data-ipa-cfg-mgr/ipacm/src/IPACM_Conntrack_NATApp.cpp:254-293 | after that a deleted connection leaves its rule in the hardware, although no slot has it |
| NatCache.NatApp.RestoreAll | data-ipa-cfg-mgr/ipacm/src/IPACM_Conntrack_NATApp.cpp:153-185 | the loop asks the hardware for the rule of every used slot, in order, and each slot is enabled or cleared by the answer to its own |
| NatCache.NatApp.Restore | data-ipa-cfg-mgr/ipacm/src/IPACM_Conntrack_NATApp.cpp:158-182 | one slot: its rule is asked for, and only a refusal clears it |
| NatCache.DroppedIffRefused | data-ipa-cfg-mgr/ipacm/src/IPACM_Conntrack_NATApp.cpp:153-185 | a cached slot is dropped exactly if its own rule was asked for in this call and refused |
| NatCache.AcceptingRestoresAll | data-ipa-cfg-mgr/ipacm/src/IPACM_Conntrack_NATApp.cpp:153-185 | with hardware that refuses nothing every rule to put back is enabled and no slot is lost |
| NatCache.NatApp.DeleteTable | data-ipa-cfg-mgr/ipacm/src/IPACM_Conntrack_NATApp.cpp:204-229 | succeeds exactly with a handle and the current address; the hardware is empty and every connection stays cached, disabled; otherwise nothing changes |
| NatCache.NatApp.WanDownUp | data-ipa-cfg-mgr/ipacm/src/IPACM_Conntrack_NATApp.cpp:129-229 | down and up with one address loses a connection only if the hardware refuses its own rule now; with hardware that refuses nothing every connection is back with its rule installed |
| NatCache.NatApp.Reset | data-ipa-cfg-mgr/ipacm/src/IPACM_Conntrack_NATApp.cpp:191-202 | forgets the table and disables every slot, changing nothing else of it |
| NatCache.NatApp.ChkForDup | data-ipa-cfg-mgr/ipacm/src/IPACM_Conntrack_NATApp.cpp:231-252 | true exactly if some slot has the 5-tuple |
| NatCache.NatApp.AddEntry | data-ipa-cfg-mgr/ipacm/src/IPACM_Conntrack_NATApp.cpp:296-398 | with a handle, a complete new connection fills the first unused slot; unless a side saves power the hardware is asked for its rule, and only a refusal keeps it out; without a handle it is refused; every failure leaves cache and hardware as they were |
| NatCache.NatApp.AddedIsCached | data-ipa-cfg-mgr/ipacm/src/IPACM_Conntrack_NATApp.cpp:343-394 | an accepted connection is in the slot that was free, with its 5-tuple and all that the hardware is told, enabled exactly unless a side saves power |
| NatCache.NatApp.AddsSomethingIff | data-ipa-cfg-mgr/ipacm/src/IPACM_Conntrack_NATApp.cpp:296-341 | something happens exactly if there is a handle, no port belongs to a gateway, nothing of the 5-tuple is zero, no slot has it and a slot is free |
| NatCache.NatApp.CacheEntry | data-ipa-cfg-mgr/ipacm/src/IPACM_Conntrack_NATApp.cpp:871-929 | a complete new connection fills the first unused slot, not installed; otherwise nothing changes |
| NatCache.NatApp.DeleteEntry | data-ipa-cfg-mgr/ipacm/src/IPACM_Conntrack_NATApp.cpp:254-293 | clears exactly the slot with the 5-tuple and its rule; the count becomes one too small exactly if the rule is all zero and there is an unused slot to match; without a table handle the rule stays, and cache and hardware still agree exactly if the slot was not installed |
| NatCache.NatApp.UpdatePwrSaveIf | data-ipa-cfg-mgr/ipacm/src/IPACM_Conntrack_NATApp.cpp:553-600 | a client enters power save: recorded if there is room, and with a table handle the hardware has no rule of it left; no saving client has a rule installed afterwards exactly unless the handle is missing and the recorded client had one |
| NatCache.NatApp.ResetPwrSaveIf | data-ipa-cfg-mgr/ipacm/src/IPACM_Conntrack_NATApp.cpp:602-659 | a client leaves power save: forgotten; the rules of its slots that are not installed are asked for and go by their own answers, so that with hardware that refuses nothing all of them are enabled |
| NatCache.NatApp.DelEntriesOnClntDiscon | data-ipa-cfg-mgr/ipacm/src/IPACM_Conntrack_NATApp.cpp:790-835 | with a table handle the hardware has no rule of a disconnecting client left; its slots stay cached and are only disabled, and it is no longer in power save |
| NatCache.NatApp.DelEntriesOnSTAClntDiscon | data-ipa-cfg-mgr/ipacm/src/IPACM_Conntrack_NATApp.cpp:837-869 | with a table handle no slot and no rule leads to a disconnecting station client; without one the slots whose rules are in the hardware stay |
| NatCache.NatApp.AddTempEntry | data-ipa-cfg-mgr/ipacm/src/IPACM_Conntrack_NATApp.cpp:671-719 | an entry that uses no gateway port and is neither cached nor waiting goes to the first place without addresses, if there is one; otherwise nothing changes |
| NatCache.NatApp.FlushTempEntries | data-ipa-cfg-mgr/ipacm/src/IPACM_Conntrack_NATApp.cpp:749-788 | place by place, an entry of the address that came through the current public address is added to cache and hardware as AddEntry does it, by the hardware's answer to it, and leaves its place, or waits on if it is refused; the others of the address are dropped; all other places stay |
| LanBook.CountPositive | data-ipa-cfg-mgr/ipacm/src/IPACM_LanToLan.cpp:1063-1084 | a reference count is positive exactly if a peer of that header type is recorded |
| LanBook.BookedIffWanted | data-ipa-cfg-mgr/ipacm/src/IPACM_LanToLan.cpp:147-258 | between events the records call for exactly what the logical network wants |
| LanBook.FiltersPointToRoutes | data-ipa-cfg-mgr/ipacm/src/IPACM_LanToLan.cpp:260-295 | whenever a filtering rule is wanted, the routing rule for the same client in the table it points to, and the context behind it, are wanted too |
| LanClients.ClientAddedSettles | data-ipa-cfg-mgr/ipacm/src/IPACM_LanToLan.cpp:937-1001 | adding a client keeps the between-events invariant |
| LanClients.ClientAddedBooks | data-ipa-cfg-mgr/ipacm/src/IPACM_LanToLan.cpp:937-1001 | a new client adds exactly its routing rules per peer header type, its filtering rules on the peers and its intra-interface rules |
| LanClients.ClientRemovedSettles | data-ipa-cfg-mgr/ipacm/src/IPACM_LanToLan.cpp:1003-1061 | deleting a client keeps the between-events invariant |
| LanClients.ClientRemovedBooks | data-ipa-cfg-mgr/ipacm/src/IPACM_LanToLan.cpp:1003-1061 | deleting a client takes away exactly those |
| LanLinks.RecordsLink | data-ipa-cfg-mgr/ipacm/src/IPACM_LanToLan.cpp:260-295 | the two peer records with crossed table names link the interfaces |
| LanLinks.LinkKeepsCore | data-ipa-cfg-mgr/ipacm/src/IPACM_LanToLan.cpp:915-935 | linking keeps lists without duplicates, mutual peers, right counts and right names |
| LanLinks.BroughtUpSettles | data-ipa-cfg-mgr/ipacm/src/IPACM_LanToLan.cpp:196-227 | after linking to all, the between-events invariant holds again |
| LanDown.UnlinkBooks | data-ipa-cfg-mgr/ipacm/src/IPACM_LanToLan.cpp:713-775 | unlinking takes away exactly the filters for each other's clients and, for a last peer of a type, its context and routing rules |
| LanDown.UnlinkKeepsCore | data-ipa-cfg-mgr/ipacm/src/IPACM_LanToLan.cpp:713-775 | unlinking keeps lists without duplicates, mutual peers, right counts and right names |
| LanDown.RoundMatches | data-ipa-cfg-mgr/ipacm/src/IPACM_LanToLan.cpp:721-758 | one round of the down loop keeps installed and recorded things equal |
| LanDown.DownDone | data-ipa-cfg-mgr/ipacm/src/IPACM_LanToLan.cpp:713-775 | when an interface is gone the others satisfy the invariant and the topology is the old one without it |
| LanEvents.Next | data-ipa-cfg-mgr/ipacm/src/IPACM_LanToLan.cpp:147-413 | what each event does to interfaces, addresses, clients and cached announcements stays a well-formed network |
| LanEvents.CachedForIs | data-ipa-cfg-mgr/ipacm/src/IPACM_LanToLan.cpp:372-392 | the clients added when an interface comes up are exactly those announced for it before |
| LanEvents.UncachedKeeps | data-ipa-cfg-mgr/ipacm/src/IPACM_LanToLan.cpp:394-413 | clearing the announcements of an interface keeps all others |
| LanEvents.RunLeavesOthers | data-ipa-cfg-mgr/ipacm/src/IPACM_LanToLan.cpp:103-258 | any run of events about one interface leaves the other interfaces as they were |
| LanEvents.DownLeavesNoTrace | data-ipa-cfg-mgr/ipacm/src/IPACM_LanToLan.cpp:713-775 | after an interface that was not up has come up, had any events, and gone down, the network is as if it had never come up and no announcement for it is cached |
| LanHistory.EventsDecideNetwork | data-ipa-cfg-mgr/ipacm/src/IPACM_LanToLan.cpp:103-413 | over every list of events: an interface is up exactly if it came up, usable and with room, and has not gone down since; it has an address exactly if that was reported while it was up or came up; a client is on it exactly if it was announced, taken, not deleted while the interface was up, and the interface has not gone down since; what waits is what was announced meanwhile |
| LanHistory.WantedByEvents | data-ipa-cfg-mgr/ipacm/src/IPACM_LanToLan.cpp:103-413 | what the network wants in the hardware, read off the list of events |
| LanHistory.DeletedIsClientIff | data-ipa-cfg-mgr/ipacm/src/IPACM_LanToLan.cpp:331-354 | a client whose last event is its deletion is a client all the same exactly if its interface was not up then, its announcement was cached, and the interface has come up since and is up |
| LanHistory.DeletedTooEarly | data-ipa-cfg-mgr/ipacm/src/IPACM_LanToLan.cpp:331-354 | announced, deleted, then the interface comes up: the client is there |
| LanToLan.Controller.constructor | data-ipa-cfg-mgr/ipacm/src/IPACM_LanToLan.cpp:87-96 | the controller starts with no interface and an empty hardware |
| LanToLan.Controller.AddHdrProcCtx | data-ipa-cfg-mgr/ipacm/src/IPACM_LanToLan.cpp:1063-1074 | installs the context exactly for the first peer of its header type |
| LanToLan.Controller.DelHdrProcCtx | data-ipa-cfg-mgr/ipacm/src/IPACM_LanToLan.cpp:1076-1084 | deletes the context exactly when no peer of its header type is left |
| LanToLan.Controller.AddClientRtRule | data-ipa-cfg-mgr/ipacm/src/IPACM_LanToLan.cpp:459-521 | installs both routing rules of a client, in the table named by the peer record and with the handle of the installed processing context |
| LanToLan.Controller.DelClientRtRule | data-ipa-cfg-mgr/ipacm/src/IPACM_LanToLan.cpp:663-711 | deletes both routing rules of a client for a header type |
| LanToLan.Controller.AddClientFltRule | data-ipa-cfg-mgr/ipacm/src/IPACM_LanToLan.cpp:576-618 | installs one filtering rule pointing to the named table and records the client once |
| LanToLan.Controller.DelClientFltRule | data-ipa-cfg-mgr/ipacm/src/IPACM_LanToLan.cpp:636-661 | deletes the client's filtering rules for the assigned address types and its record |
| LanToLan.Controller.AddClientToPeers | data-ipa-cfg-mgr/ipacm/src/IPACM_LanToLan.cpp:968-985 | routing rules once per header type and filtering rules on every peer, and nothing else |
| LanToLan.Controller.HandleClientAdd | data-ipa-cfg-mgr/ipacm/src/IPACM_LanToLan.cpp:937-1001 | a new client joins the topology if there is room, with exactly the rules it needs |
| LanToLan.Controller.DelClientFromPeers | data-ipa-cfg-mgr/ipacm/src/IPACM_LanToLan.cpp:1018-1037 | the inverse: filtering rules on every peer go, routing rules once per header type |
| LanToLan.Controller.HandleClientDel | data-ipa-cfg-mgr/ipacm/src/IPACM_LanToLan.cpp:1003-1061 | the client leaves the topology and everything installed for it goes |
| LanToLan.Controller.AddAllInterFltRules | data-ipa-cfg-mgr/ipacm/src/IPACM_LanToLan.cpp:523-537 | one filtering rule for each client of each peer, for the address type |
| LanToLan.Controller.AddAllIntraFltRules | data-ipa-cfg-mgr/ipacm/src/IPACM_LanToLan.cpp:539-550 | one filtering rule for each own client, for the address type |
| LanToLan.Controller.HandleMoreAddress | data-ipa-cfg-mgr/ipacm/src/IPACM_LanToLan.cpp:153-173 | a further address type joins the topology |
| LanToLan.Controller.HandleNewPeer | data-ipa-cfg-mgr/ipacm/src/IPACM_LanToLan.cpp:915-935 | the peer is recorded, counted, and has its context |
| LanToLan.Controller.AddClientRtRuleForNewIface | data-ipa-cfg-mgr/ipacm/src/IPACM_LanToLan.cpp:441-457 | the existing clients get routing rules exactly if the new peer is the first of its type |
| LanToLan.Controller.LinkIface | data-ipa-cfg-mgr/ipacm/src/IPACM_LanToLan.cpp:196-216 | the new and an existing interface are linked, installed and recorded things still equal |
| LanToLan.Controller.LinkAll | data-ipa-cfg-mgr/ipacm/src/IPACM_LanToLan.cpp:206-216 | the new interface is linked to all others |
| LanToLan.Controller.BringUp | data-ipa-cfg-mgr/ipacm/src/IPACM_LanToLan.cpp:174-223 | the topology gains the interface with its address and no clients, and the invariant holds |
| LanToLan.Controller.ClearAllFltRules | data-ipa-cfg-mgr/ipacm/src/IPACM_LanToLan.cpp:777-796 | all filtering rules for one peer go, and its record is emptied |
| LanToLan.Controller.ClearAllRtRules | data-ipa-cfg-mgr/ipacm/src/IPACM_LanToLan.cpp:798-813 | all clients' routing rules for a header type go, exactly if no peer of that type is left |
| LanToLan.Controller.ClearPeer | data-ipa-cfg-mgr/ipacm/src/IPACM_LanToLan.cpp:721-758 | one round of the down loop deletes exactly what the two sides have for each other |
| LanToLan.Controller.UnlinkAll | data-ipa-cfg-mgr/ipacm/src/IPACM_LanToLan.cpp:718-760 | afterwards no interface has the one going down as a peer |
| LanToLan.Controller.ClearIntra | data-ipa-cfg-mgr/ipacm/src/IPACM_LanToLan.cpp:762-770 | all intra-interface rules and the context go |
| LanToLan.Controller.BringDown | data-ipa-cfg-mgr/ipacm/src/IPACM_LanToLan.cpp:231-258 | the topology loses the interface and the hardware everything it caused, on itself and on its peers |
| LanToLan.Controller.HandleCachedClientAdds | data-ipa-cfg-mgr/ipacm/src/IPACM_LanToLan.cpp:372-392 | the announced clients of the interface are added and their announcements removed |
| LanToLan.Controller.ClearCachedClientAdds | data-ipa-cfg-mgr/ipacm/src/IPACM_LanToLan.cpp:394-413 | exactly the announcements for the interface are removed, the others keep their order |
| LanToLan.Controller.HandleIfaceUp | data-ipa-cfg-mgr/ipacm/src/IPACM_LanToLan.cpp:147-229 | the logical network becomes the next one for this event |
| LanToLan.Controller.HandleIfaceDown | data-ipa-cfg-mgr/ipacm/src/IPACM_LanToLan.cpp:231-258 | the logical network becomes the next one for this event |
| LanToLan.Controller.HandleClientAddEvent | data-ipa-cfg-mgr/ipacm/src/IPACM_LanToLan.cpp:297-329 | added to an interface that is up, else cached while there is room |
| LanToLan.Controller.HandleClientDelEvent | data-ipa-cfg-mgr/ipacm/src/IPACM_LanToLan.cpp:331-354 | the logical network becomes the next one for this event: deleted from an interface that is up, else ignored |
| LanToLan.Controller.HandleAll | data-ipa-cfg-mgr/ipacm/src/IPACM_LanToLan.cpp:103-145 | after any run of events the installed things are exactly those that the resulting network wants |
| LanToLan.RunNew | data-ipa-cfg-mgr/ipacm/src/IPACM_LanToLan.cpp:103-145 | after any run of events a new controller has in the hardware exactly what can be read off the list of events |
| LanToLan.RoutesNameContexts | data-ipa-cfg-mgr/ipacm/src/IPACM_LanToLan.cpp:459-521 | every routing rule in the hardware names by its handle the processing context of its interface and header type, or the intra-interface one, and that context is in the hardware |
| LanToLan.HardwareIsExactlyWanted | data-ipa-cfg-mgr/ipacm/src/IPACM_LanToLan.cpp:147-258 | the hardware holds each wanted thing once, in its table, and nothing else |
| LanToLan.FiltersFindRoutes | data-ipa-cfg-mgr/ipacm/src/IPACM_LanToLan.cpp:260-295 | every filtering rule in the hardware points to a table in which the hardware holds that client's routing rule |
| LanToLan.SameNetworkSameHardware | data-ipa-cfg-mgr/ipacm/src/IPACM_LanToLan.cpp:713-775 | equal networks have equal hardware whatever their histories, so that going down undoes coming up |
| EthClients.EthTable.GetEthClientIndex | data-ipa-cfg-mgr/ipacm/inc/IPACM_Lan.h:268-297 | the index of the client with the address, or -1 exactly if there is none |
| EthClients.EthTable.DeleteEthRtRules | data-ipa-cfg-mgr/ipacm/inc/IPACM_Lan.h:299-360 | the hardware has no routing rule of the client for the address type left, and nobody else's is touched |
| EthClients.EthTable.HandleEthHdrInit | data-ipa-cfg-mgr/ipacm/src/IPACM_Lan.cpp:1406-1678 | a new address gets a place at the end, without addresses and rules and with a header in the hardware per address type of the transmit properties, unless present or the table is full |
| EthClients.EthTable.HandleEthClientIpv4 | data-ipa-cfg-mgr/ipacm/src/IPACM_Lan.cpp:1705-1744 | a first or changed address is stored and the hardware has no IPv4 rule of the client left; zero or the same one is refused |
| EthClients.EthTable.HandleEthClientIpv6 | data-ipa-cfg-mgr/ipacm/src/IPACM_Lan.cpp:1745-1784 | a new address comes after the earlier ones, up to three; duplicates and others are refused |
| EthClients.WantsV6Iff | data-ipa-cfg-mgr/ipacm/src/IPACM_Lan.cpp:1750-1775 | there is room and the address is not among the recorded ones |
| EthClients.EthTable.HandleEthClientRouteRule | data-ipa-cfg-mgr/ipacm/src/IPACM_Lan.cpp:1788-1986 | afterwards the hardware has, for every transmit property of the type, a rule for the client's IPv4 address, or a LAN and a WAN rule for each of its IPv6 addresses; the other clients are the same |
| EthClients.RoutedIsServed | data-ipa-cfg-mgr/ipacm/src/IPACM_Lan.cpp:1850-1982 | a record whose rules are up to date has all its addresses routed in the hardware |
| EthClients.EthTable.HandleEthClientDown | data-ipa-cfg-mgr/ipacm/src/IPACM_Lan.cpp:2320-2442 | nothing of the client stays in the hardware; all other clients keep their records and order |
| EthClients.EthTable.Shift | data-ipa-cfg-mgr/ipacm/src/IPACM_Lan.cpp:2378-2422 | closing the gap moves every later client one place forward |
| EthClients.EthTable.CopyClient | data-ipa-cfg-mgr/ipacm/src/IPACM_Lan.cpp:2380-2421 | the field-by-field copy keeps everything of the client that is in use |
| EthClients.EthTable.HandleLanClientResetRt | data-ipa-cfg-mgr/ipacm/src/IPACM_Lan.cpp:3128-3157 | no client has an address or a rule of the type left, in record or hardware, and nothing else changes |
| EthClients.ClosedUpInOrder | data-ipa-cfg-mgr/ipacm/src/IPACM_Lan.cpp:2320-2442 | closing up keeps addresses unique and every handle owned |
| EthClients.HardwareIsExactlyNamed | data-ipa-cfg-mgr/ipacm/src/IPACM_Lan.cpp:1406-1988 | a handle is in the hardware exactly if a record in use names it |
| EthClients.HandlesAreNamedOnce | data-ipa-cfg-mgr/ipacm/src/IPACM_Lan.cpp:1406-1988 | no handle is named twice |
| EthClients.RulesNameHeaders | data-ipa-cfg-mgr/ipacm/src/IPACM_Lan.cpp:1850-1960 | every IPv4 rule and every IPv6 rule of the WAN table names the handle of its own client's header, which is in the hardware; the IPv6 rules of the LAN table name none |
| RmDepend.IpacmTableIsDistinct | data-ipa-cfg-mgr/ipacm/src/IPACM_Config.cpp:358-387 | the twelve dependencies of the table are pairwise different |
| RmDepend.IpacmTableConnects | data-ipa-cfg-mgr/ipacm/src/IPACM_Config.cpp:358-387 | each entry of the table connects two different peripherals both ways, and each two are connected by one |
| RmDepend.RunTableRightIff | data-ipa-cfg-mgr/ipacm/src/IPACM_Config.cpp:533-738 | in every run each entry is right after every call (set exactly while its producer was added last and its consumer is up) if and only if the modem consumer is never deleted with more than two users and never added when deleted more often than added |
| RmDepend.CallRightIff | data-ipa-cfg-mgr/ipacm/src/IPACM_Config.cpp:533-738 | one call keeps the table right exactly if it is not such a deletion or addition |
| RmDepend.ThreeUsersBreak | data-ipa-cfg-mgr/ipacm/src/IPACM_Config.cpp:696-701 | three additions and one deletion take the modem consumer down while two users are left |
| RmDepend.EarlyDeletionBreaks | data-ipa-cfg-mgr/ipacm/src/IPACM_Config.cpp:641-738 | a deletion before the first addition leaves the modem consumer up without a user |
| RmDepend.RunKernelRightIff | data-ipa-cfg-mgr/ipacm/src/IPACM_Config.cpp:533-738 | in every run the kernel has exactly the dependencies of the set entries after every call if and only if no call changes the bypass flag of a set dependency |
| RmDepend.AddKernelRightIff | data-ipa-cfg-mgr/ipacm/src/IPACM_Config.cpp:533-635 | one addition keeps that, if and only if no producer of a set dependency changes its bypass flag |
| RmDepend.DeleteKernelRight | data-ipa-cfg-mgr/ipacm/src/IPACM_Config.cpp:641-738 | one deletion keeps exactly the dependencies of the entries still set |
| RmDepend.OneFlagIsSteady | data-ipa-cfg-mgr/ipacm/src/IPACM_Config.cpp:533-635 | if every producer always comes up with the same flag, no call of the run changes the flag of a set dependency |
| RmDepend.RunRight | data-ipa-cfg-mgr/ipacm/src/IPACM_Config.cpp:533-738 | after any run with one bypass flag per producer in which the calls for the modem consumer fit, the kernel has a dependency exactly if the calls have brought both its ends up, the one from the producer unless it bypasses the hardware |
| RmDepend.RmConfig.AddRmDepend | data-ipa-cfg-mgr/ipacm/src/IPACM_Config.cpp:533-635 | the loop over the table leaves table, kernel and user count as the calls so far say, and the kernel stays right exactly if the bypass flag is steady |
| RmDepend.RmConfig.DelRmDepend | data-ipa-cfg-mgr/ipacm/src/IPACM_Config.cpp:641-738 | the loop over the table leaves table, kernel and user count as the calls so far say, and the kernel stays right |
| RmDepend.RunNew | data-ipa-cfg-mgr/ipacm/src/IPACM_Config.cpp:533-738 | any run of calls on a new object ends in a right table and a right kernel under those two conditions |
| RmDepend.BypassFlips | data-ipa-cfg-mgr/ipacm/src/IPACM_Config.cpp:558-575 | a producer that comes up again, now bypassing the hardware, leaves a wrong dependency in the kernel |
| EventQueue.MessageQueue.Enqueue | data-ipa-cfg-mgr/ipacm/src/IPACM_CmdQueue.cpp:81-101 | appends to the queue although the tail pointer may be stale, writing only to messages that are in the queue |
| EventQueue.MessageQueue.Dequeue | data-ipa-cfg-mgr/ipacm/src/IPACM_CmdQueue.cpp:104-117 | takes the oldest message, none exactly if there is none |
| EventQueue.RunKeepsOrder | data-ipa-cfg-mgr/ipacm/src/IPACM_CmdQueue.cpp:120-205 | in every run each queue holds what was posted to it and not yet processed, in order |
| EventQueue.ProcessedInOrder | data-ipa-cfg-mgr/ipacm/src/IPACM_CmdQueue.cpp:120-205 | in every run the events of each kind that the run posts are those processed, in posting order, and after them those in the queue |
| EventQueue.InternalGoesFirst | data-ipa-cfg-mgr/ipacm/src/IPACM_CmdQueue.cpp:149-165 | no external event is processed while an internal one waits |
| EventQueue.NoEventIsStuck | data-ipa-cfg-mgr/ipacm/src/IPACM_CmdQueue.cpp:147-203 | while an event waits, processing takes one |
| EventQueue.DeliveredWhenProcessed | data-ipa-cfg-mgr/ipacm/src/IPACM_EvtDispatcher.cpp:118-214 | in every run each processed event is delivered once, to exactly the listeners that the registrations and deregistrations before that turn have left for it, in registration order |
| EventQueue.CalledIffRegistered | data-ipa-cfg-mgr/ipacm/src/IPACM_EvtDispatcher.cpp:118-214 | after any registrations and deregistrations an event reaches a listener exactly if that has registered for it and not deregistered since |
| EventQueue.PostedAreThePosts | data-ipa-cfg-mgr/ipacm/src/IPACM_EvtDispatcher.cpp:53-116 | what counts as posted is what the run posts, in its order |
| EventQueue.KindIsByNumber | data-ipa-cfg-mgr/ipacm/src/IPACM_EvtDispatcher.cpp:60-75 | an event is internal exactly if its number is not below the limit |
| EventQueue.Dispatcher.PostEvt | data-ipa-cfg-mgr/ipacm/src/IPACM_EvtDispatcher.cpp:53-116 | the event goes to the end of the queue that its number selects |
| EventQueue.Dispatcher.PerformAll | data-ipa-cfg-mgr/ipacm/src/IPACM_CmdQueue.cpp:120-205 | any sequence of posts, processing turns, registrations and deregistrations on the objects goes through the queues, registrations and deliveries of the value-level run |
| EventQueue.Listeners.PerformAll | data-ipa-cfg-mgr/ipacm/src/IPACM_EvtDispatcher.cpp:150-214 | any sequence of registrations and deregistrations on the list leaves exactly the registrations that it should |
| EventQueue.RunNew | data-ipa-cfg-mgr/ipacm/src/IPACM_CmdQueue.cpp:120-205 | a new dispatcher, after any run, has processed each kind of event in posting order and delivered each processed one to exactly the listeners registered at that moment |
| EventQueue.Dispatcher.Process | data-ipa-cfg-mgr/ipacm/src/IPACM_CmdQueue.cpp:141-203 | the next event is delivered to exactly its listeners, in registration order |
| EventQueue.Listeners.Registr | data-ipa-cfg-mgr/ipacm/src/IPACM_EvtDispatcher.cpp:150-179 | the registration is appended |
| EventQueue.Listeners.Deregistr | data-ipa-cfg-mgr/ipacm/src/IPACM_EvtDispatcher.cpp:182-214 | unlinking in place removes exactly the listener's registrations |
| EventQueue.Listeners.ProcessEvt | data-ipa-cfg-mgr/ipacm/src/IPACM_EvtDispatcher.cpp:118-148 | the calls are those registered for the event, in registration order |
| EventQueue.WithoutKeepsOthers | data-ipa-cfg-mgr/ipacm/src/IPACM_EvtDispatcher.cpp:182-214 | every other listener keeps its registrations in their order |
| EventQueue.DeregisteredIsNotCalled | data-ipa-cfg-mgr/ipacm/src/IPACM_EvtDispatcher.cpp:118-214 | an event then reaches exactly the other listeners it reached before, in the same order |
| LinkedList.List.Add | gps/utils/linked_list.c:110-155 | a new element at the head; all links stay consistent |
| LinkedList.List.Remove | gps/utils/linked_list.c:162-204 | takes the element at the tail; all links stay consistent |
| LinkedList.List.Flush | gps/utils/linked_list.c:230-260 | empties the list and deallocates exactly the data that came with a function, once each, from head to tail |
| LinkedList.DeallocableCounts | gps/utils/linked_list.c:230-260 | each datum is deallocated as often as it came with a function |
| LinkedList.List.Unlink | gps/utils/linked_list.c:298-310 | takes one element out of the middle or an end; all links stay consistent |
| LinkedList.List.Search | gps/utils/linked_list.c:267-327 | finds the first match from the head, and removes and deallocates it exactly when asked to |
| MsgQueue.RunConserves | gps/utils/msg_q.c:185-336 | in every run the departed messages are the first ones accepted, each once, the queued ones are the rest in order, and the deallocation functions called are those of the flushed ones, in the order of the flushes |
| MsgQueue.FirstInFirstOut | gps/utils/msg_q.c:185-268 | a message received after k departures is the k-th that was sent before the queue was unblocked |
| MsgQueue.AcceptedAreSent | gps/utils/msg_q.c:185-222 | in every run exactly the messages sent before the queue is unblocked are accepted, in their order and with what the sender asked for |
| MsgQueue.ReceiverTakesOldest | gps/utils/msg_q.c:249-268 | a receiver that leaves takes the oldest message that is left, and goes without one exactly if all have departed |
| MsgQueue.WaitingAreCounted | gps/utils/msg_q.c:249-268 | those that wait are the ones that came before the queue was unblocked and have not left |
| MsgQueue.FlushIsNewestFirst | gps/utils/msg_q.c:276-299 | a flush lets the queued messages leave in the opposite order, the newest first |
| MsgQueue.StepOrderlyIff | gps/utils/msg_q.c:185-336 | one operation keeps the departures in the order of acceptance exactly unless it flushes a queue that reads differently from its other end |
| MsgQueue.RunOrderlyIff | gps/utils/msg_q.c:185-336 | in every run messages depart in the order of acceptance if and only if every flush meets a queue that reads the same from both ends |
| MsgQueue.SymmetricIffShort | gps/utils/msg_q.c:276-299 | for distinct messages that is a queue of at most one |
| MsgQueue.FlushBreaksOrder | gps/utils/msg_q.c:276-299 | two sends and a flush on a new queue break the order |
| MsgQueue.UnblockedFreesAll | gps/utils/msg_q.c:257-268 | after unblocking all waiting receivers can leave one after the other, with or without a message |
| MsgQueue.UnblockedStaysClosed | gps/utils/msg_q.c:204-209 | after unblocking nothing is accepted and nobody starts to wait |
| MsgQueue.MsgQ.MsgQSnd | gps/utils/msg_q.c:185-222 | the send step on the list, with its error results |
| MsgQueue.MsgQ.MsgQRcvEnter | gps/utils/msg_q.c:249-254 | a receiver is turned away exactly if the queue is unblocked |
| MsgQueue.MsgQ.MsgQRcvLeave | gps/utils/msg_q.c:257-268 | a released receiver gets the oldest message, or an error if there is none |
| MsgQueue.MsgQ.MsgQFlush | gps/utils/msg_q.c:276-299 | all queued messages leave, and are deallocated, in the order of the list: newest first |
| MsgQueue.MsgQ.PerformAll | gps/utils/msg_q.c:185-336 | any run of operations on the object goes through the states of the value-level run |
| MsgQueue.RunNew | gps/utils/msg_q.c:185-336 | a new queue, after any run, has given its receivers the messages in order, and let all depart in order exactly if the flushes fit |
| MsgQueue.MsgQ.MsgQUnblock | gps/utils/msg_q.c:306-336 | unblocks once; a second time is an error |
| ThreadLifetime.StepKeeps | gps/utils/LocThread.cpp:65-202 | every step of either thread keeps the lifetime invariant |
| ThreadLifetime.CountIsParties | gps/utils/LocThread.cpp:153-173 | the count is the number of parties that are still to release the delegate |
| ThreadLifetime.FreedOnceAtTheEnd | gps/utils/LocThread.cpp:153-173 | in every interleaving the delegate is freed exactly when both are done with it, once, and never touched afterwards |
| ThreadLifetime.ReleaseAlwaysFindsCount | gps/utils/LocThread.cpp:154-158 | the check for a used-up count never fails |
| ThreadLifetime.SomeoneCanStep | gps/utils/LocThread.cpp:65-202 | no interleaving deadlocks |
| ThreadLifetime.RunnableDeletedAtMostOnce | gps/utils/LocThread.cpp:175-202 | the runnable is deleted at most once and never called afterwards; it is deleted exactly if the spawned thread found it |
| ThreadLifetime.StopWaits | gps/utils/LocThread.cpp:130-146 | in every run after the join in stop the spawned thread takes no step, and the runnable has been deleted exactly if the thread had found it |
| ThreadLifetime.JoinedIffJoinable | gps/utils/LocThread.cpp:47-51 | however a started thread is given up, it has been joined before the delegate is released exactly if it is joinable |
| ThreadLifetime.CallsAreOrdered | gps/utils/LocThread.cpp:175-202 | in every interleaving the runnable is prepared at most once and first, runs again only after it has asked to, is told at most once that it is over, and is not called after its deletion |
| ThreadLifetime.RunsAgainIff | gps/utils/LocThread.cpp:186-186 | whatever the parent does meanwhile, the runnable runs again exactly if it has asked to and has not been cleared |
| ThreadLifetime.PromiseKeptIff | gps/utils/LocThread.cpp:111-122 | the header's promise about who deletes the runnable is kept exactly if a successful start was read before it was stopped and a failed one created no thread |
| ThreadLifetime.PromiseKeptByOrder | gps/utils/LocThread.cpp:65-146 | in every complete run the promise is kept exactly if the creation failed, or the thread reads the runnable before the parent clears it and the parent looks at it before the thread does |
| ThreadLifetime.StoppedTooEarly | gps/utils/LocThread.cpp:130-136 | a run in which start succeeds and nobody deletes the runnable |
| ThreadLifetime.FinishedTooEarly | gps/utils/LocThread.cpp:111-122 | a run in which start fails after the thread has run and deleted the runnable |

## Left out

- Memory allocation failure, integer widths and wrap-around, except where a bound is proved (table entries of the search are at most twice the pattern length); ids, ports, addresses and handles are natural numbers.
- BmSearch: demands a non-empty pattern, because for an empty one the table loops run past the arrays before the length is looked at.
- File mapping, version parsing and the edify function around the search.
- LAN-to-LAN: the guest access point, which is linked as a peer but never unlinked by its own down event; the switch between single and multi channel, which rewrites rules in place without changing what is installed; failing hardware calls.
- LAN-to-LAN: the objects for interfaces, peers and clients are kept in one record indexed by interface and address instead of one object each, so aliasing between them is not captured; the several hardware rules behind one routing rule are one object; the pointer to a client in a filter record is the client's address.
- Hardware handles are fresh numbers, never used again; the real driver may reuse them.
- Timer service: one of the two containers (the two share their threads but no heap), clients that are destroyed, and the share count of the lock; each message's heap work and the deletion that ends a Remove message are single steps.
- PopNode and RemoveNode: nodes are not deallocated, so what is not captured is reuse of their memory.
- NAT: the hardware has one table and refuses a second one while it is up, which the kernel decides, not this repository; deletions of the table and of installed rules succeed when the handle is there; once a rule is left in the hardware without a slot, nothing further is said; reading port lists and time-outs, the UDP time-stamp refresh and the removal of a single temporary entry, which are calls of the connection-tracking library or plain array clearing.
- DeleteEntry: the listener passes only TCP and UDP rules, so the all-zero rule that breaks the count does not reach it there; that caller is not part of this model.
- Ethernet clients: failing hardware calls, the NAT and dependency calls made beside them, and the check of the IPv6 prefix, which is a parameter.
- Resource-manager ioctl results are ignored as in the source; the kernel is a set of dependencies.
- Event queue: failures of the mutex and condition calls; listeners that register or deregister from within a callback, which the model lets happen between two turns only; waking up the processing thread.
- Search: what the data pointer holds after a search of an empty list, which the source leaves as it was.
- MsgQRcvLeave: waking up of condition-variable waiters is not modelled, only when a receiver may leave; creation and destruction of queues are not either.
- SomeoneCanStep: no fairness is assumed, so that a runnable that always asks to be run again is not excluded.
- Headers, routing and filtering wrappers over the driver, ODU and tethering code, lights, health daemon, release tools, logging and configuration parsing: device access or glue.
