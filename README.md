# Mobicents cluster fail-over, timers and SBB entity cache — a Dafny model

This project models the core of the Mobicents clustering layer in Dafny and
proves properties of that model. It covers five pieces:

- **The cluster controller** `DefaultMobicentsCluster` (module `Cluster`). It covers:
  - the membership queries;
  - the fail-over and data-removal listener registries;
  - the takeover of a lost member's records after a view change, and the buddy-backup path it builds;
  - the dispatch of remote node removals.

  The replicated cache is a map from a base FQN to the records under it, each
  record being a child name and its owner address. The transaction is a
  snapshot that is restored on rollback. The listener hooks, the per-record
  electors and the backup fetch are functions held in an `Environment` value.
  The calls into the listeners are recorded in a `callbacks` log.
- **The Infinispan fail-over elector** (module `FailOverElection`). It is the index
  `((shift % n) + n) % n` with shift 5, using Java's truncating `%`.
- **The timers' transaction synchronization** (module `TransactionSync`). It maps
  a completion status to the optional action that runs.
- **The timer commit actions and `TimerTask`** (module `Timers`). They arm a task
  on the executor or cancel it. The executor is a recorder of the schedule
  requests it accepted and of the futures it cancelled. The clock is a `now`
  parameter.
- **`SbbEntityCacheData`** (module `SbbEntityCache`). It is the cache proxy of one
  SBB entity. Each child node becomes a Dafny set or map: the attached activity
  contexts, the event masks, the CMP fields and the child relations.

Some properties are proved about these models:

- A successful takeover pass gives every record the lost member owned, and
  for which the local node was elected, to the local node. It calls
  `wonOwnership` exactly once per such record. It changes nothing else.
- A failed pass under a transaction manager leaves the store untouched.
- A whole view change moves only records owned by lost members, and only to
  the local node. It touches only the groups the local node may take over.
- A view change runs exactly the passes of the listener loop: one per lost
  member and listener with its own elector, and one per lost member and
  listener when the local node is elected. It completes iff the generic
  elector answers, every listener has its own elector, or no member is lost.
- When the local node stays in the view and the old view lists no member
  twice, each pass of a view change succeeds exactly when it would on the
  store as it was before the change. Earlier passes move only other lost
  members' records, which a pass skips.
- After a view change in which the local node is elected and stays in the
  view, and every pass succeeds, no lost member owns a record under a
  listener without its own elector.
- A periodic timer with period zero is never armed: the executor rejects
  it, and the set-timer action removes the timer instead.
- The registries stay sorted by priority and unique per base FQN.
- The elector's index is in range and equals the Euclidean remainder, for
  every shift.
- Commit and rollback actions are exclusive.
- The set-timer action picks the schedule kind, clamps the delay to be
  non-negative, and becomes a no-op once canceled.
- The SBB cache operations obey the map and set laws, and the nested loop of
  `getAllChildSbbEntities` collects exactly the union of the relations.

## Model

Source paths are relative to the repository root.

| member | source | states |
|---|---|---|
| `FailOverElection.JavaRem` | infinispan/src/main/java/org/mobicents/cluster/infinispan/InfinispanFailOverElector.java:29-30 | Java's `%` has the sign of the dividend and magnitude below the divisor. It agrees with the Euclidean remainder for non-negative dividends. |
| `FailOverElection.ElectIndex` | infinispan/src/main/java/org/mobicents/cluster/infinispan/InfinispanFailOverElector.java:28-30 | For any shift and any non-empty view size, the computed index lies in `[0, size)` and equals `shift mod size`. |
| `FailOverElection.Elect` | infinispan/src/main/java/org/mobicents/cluster/infinispan/InfinispanFailOverElector.java:25-32 | The elected member belongs to the view and sits at position 5 modulo the view size. The empty view, a division by zero in the source, is excluded. |
| `FailOverElection.ElectSamePosition` | infinispan/src/main/java/org/mobicents/cluster/infinispan/InfinispanFailOverElector.java:28-30 | The choice depends only on the view's size: two views of equal size both elect the member at position `ElectIndex(5, size)`. |
| `FailOverElection.ElectExamples` | infinispan/src/main/java/org/mobicents/cluster/infinispan/InfinispanFailOverElector.java:16 | With shift 5: 3 members give index 2, 1 member gives 0, 5 members give 0, and `[A,B,C]` elects `C`. |
| `TransactionSync.TransactionSynchronization.AfterCompletion` | timers/src/main/java/org/mobicents/timers/TransactionSynchronization.java:36-50 | At most one action runs. COMMITTED runs the commit action and never the rollback action; ROLLEDBACK runs the rollback action and never the commit action. A null action is skipped. |
| `TransactionSync.TransactionSynchronization.BeforeCompletion` | timers/src/main/java/org/mobicents/timers/TransactionSynchronization.java:56-60 | Only the before-commit action runs, and it runs iff it is not null. |
| `TransactionSync.CountSlot` | timers/src/main/java/org/mobicents/timers/TransactionSynchronization.java:36-60 | The count of actions from a slot is at most the number run. It is zero iff no action from that slot ran. |
| `TransactionSync.OutcomeExclusive` | timers/src/main/java/org/mobicents/timers/TransactionSynchronization.java:36-60 | On a final outcome with both actions present, exactly one of commit and rollback fires, exactly once. The before-commit action fires once, and first. |
| `TransactionSync.OtherStatusRunsNothing` | timers/src/main/java/org/mobicents/timers/TransactionSynchronization.java:48 | Any status other than COMMITTED and ROLLEDBACK runs no after-completion action. |
| `TransactionSync.TransactionSynchronization.Completion` | timers/src/main/java/org/mobicents/timers/TransactionSynchronization.java:36-60 | A completing transaction runs at most two actions. The before-commit action, when present, runs first and only there. A commit action runs only on COMMITTED, and a rollback action only on ROLLEDBACK. |
| `Timers.ClampedDelay` | timers/src/main/java/org/mobicents/timers/SetTimerAfterTxCommitRunnable.java:43-46 | The delay is `max(0, startTime - now)`: never negative, and exactly the time left when the start lies ahead. |
| `Timers.RequestFor` | timers/src/main/java/org/mobicents/timers/SetTimerAfterTxCommitRunnable.java:50-67 | A negative period gives a one-shot schedule. A non-negative period gives fixed-delay iff the strategy says so, and fixed-rate otherwise, with that period. The delay is always the clamped delay. |
| `Timers.RecoveredStartTime` | timers/src/main/java/org/mobicents/timers/TimerTask.java:85-90 | The recovered start is `max(start, now)`. It never decreases, and it is unchanged when already at or after `now`. |
| `Timers.RecoveryIdempotent` | timers/src/main/java/org/mobicents/timers/TimerTask.java:85-90 | Recovering twice at the same instant equals recovering once. |
| `Timers.RecoveredDelay` | timers/src/main/java/org/mobicents/timers/TimerTask.java:85-90 | A task recovered and armed at the same instant gets the delay it would have had anyway. When its start lay in the past, that delay is zero. |
| `Timers.WithoutTask` | timers/src/main/java/org/mobicents/timers/CancelTimerAfterTxCommitRunnable.java:59 | After removal the id has no entry, every other entry is unchanged, and removing an absent id changes nothing. |
| `Timers.TimerTaskData.constructor` | timers/src/main/java/org/mobicents/timers/TimerTask.java:16 | The replicated task description holds the id, start time, period and strategy it was built with. |
| `Timers.ScheduledExecutor.constructor` | timers/src/main/java/org/mobicents/timers/SetTimerAfterTxCommitRunnable.java:55-66 | A new executor has accepted no request and cancelled no future. Whether it accepts submissions is the state it is given. |
| `Timers.FaultTolerantScheduler.constructor` | timers/src/main/java/org/mobicents/timers/SetTimerAfterTxCommitRunnable.java:21 | A new scheduler uses the given executor and has no running task and no stored timer. |
| `Timers.ScheduledExecutor.Submit` | timers/src/main/java/org/mobicents/timers/SetTimerAfterTxCommitRunnable.java:55-66 | An accepting executor takes an admissible request: a one-shot, or a repetition with a positive period. It appends the request and returns a future for it. Otherwise it records nothing and throws, which is modelled as `None`. This covers a rejecting executor and a repetition with period zero or less (the executor's IllegalArgumentException). |
| `Timers.RequestAdmissible` | timers/src/main/java/org/mobicents/timers/SetTimerAfterTxCommitRunnable.java:50-72 | The set-timer request is rejected exactly when the period is zero. A negative period gives a one-shot, and a positive one a repetition the executor takes. |
| `Timers.ScheduledExecutor.Cancel` | timers/src/main/java/org/mobicents/timers/CancelTimerAfterTxCommitRunnable.java:62 | The cancelled future is recorded. |
| `Timers.FaultTolerantScheduler.Remove` | timers/src/main/java/org/mobicents/timers/SetTimerAfterTxCommitRunnable.java:71 | The id leaves the local running-task map. It also leaves the stored timers when removal from the cache is asked for. |
| `Timers.TimerTask.constructor` | timers/src/main/java/org/mobicents/timers/TimerTask.java:32-42 | The task keeps the data it was given for its whole life (a final field read by `getData`). It starts with no future and no pending action. |
| `Timers.TimerTask.SetScheduledFuture` | timers/src/main/java/org/mobicents/timers/TimerTask.java:65-75 | Reading the future back returns what was set. |
| `Timers.TimerTask.SetSetTimerTransactionalAction` | timers/src/main/java/org/mobicents/timers/TimerTask.java:48-59 | Reading the pending set-timer action back returns what was set. |
| `Timers.TimerTask.BeforeRecover` | timers/src/main/java/org/mobicents/timers/TimerTask.java:85-90 | The new start time is the recovered start of the old one at `now`. |
| `Timers.TimerTask.Cancel` | timers/src/main/java/org/mobicents/timers/CancelTimerAfterTxCommitRunnable.java:62 | The task's scheduled future, if any, is cancelled on the executor. Nothing else is cancelled. |
| `Timers.SetTimerAfterTxCommitRunnable.constructor` | timers/src/main/java/org/mobicents/timers/SetTimerAfterTxCommitRunnable.java:23-29 | A new action holds its task and scheduler, and is not canceled. |
| `Timers.SetTimerAfterTxCommitRunnable.Run` | timers/src/main/java/org/mobicents/timers/SetTimerAfterTxCommitRunnable.java:35-79 | The run has four outcomes. <br>- In every case the pending action is cleared first. <br>- A canceled action schedules nothing and keeps the future. <br>- Otherwise, when the executor accepts and the period is not zero, it receives exactly the `RequestFor` request at `now`, and the returned future is stored on the task. <br>- A rejected submission removes the task from the running map and the store instead of propagating, and nothing else in the scheduler changes. Rejection covers an executor that does not accept and a periodic timer with period zero. |
| `Timers.SetTimerAfterTxCommitRunnable.Cancel` | timers/src/main/java/org/mobicents/timers/SetTimerAfterTxCommitRunnable.java:81-87 | The action becomes canceled, and the task is removed from the running map and the store. |
| `Timers.CancelBeforeCommit` | timers/src/main/java/org/mobicents/timers/SetTimerAfterTxCommitRunnable.java:39-87 | Cancelling a set action before its commit makes the later run a no-op. Nothing is scheduled, the task is neither running nor stored, and no action is pending. |
| `Timers.CancelTimerAfterTxCommitRunnable.constructor` | timers/src/main/java/org/mobicents/timers/CancelTimerAfterTxCommitRunnable.java:41-44 | The action holds its task and scheduler. |
| `Timers.CancelTimerAfterTxCommitRunnable.Run` | timers/src/main/java/org/mobicents/timers/CancelTimerAfterTxCommitRunnable.java:50-67 | The task id leaves the running map, with the other entries kept. Then the task's future is cancelled. A failing cancel is swallowed after the removal has happened. |
| `SbbEntityCache.WithMask` | cache/src/main/java/org/mobicents/slee/runtime/cache/SbbEntityCacheData.java:147-161 | A non-empty mask is stored and read back. An empty mask removes the entry, so it reads back as empty. Other activity contexts are untouched. |
| `SbbEntityCache.WithMaskUpdate` | cache/src/main/java/org/mobicents/slee/runtime/cache/SbbEntityCacheData.java:163-177 | The new mask is the given mask when none was stored, and otherwise the union of the old one and the given one. The entry exists afterwards, and other activity contexts are untouched. |
| `SbbEntityCache.WithCmpField` | cache/src/main/java/org/mobicents/slee/runtime/cache/SbbEntityCacheData.java:245-266 | Reading the field back gives the value set, and other fields keep their values. |
| `SbbEntityCache.WithChild` | cache/src/main/java/org/mobicents/slee/runtime/cache/SbbEntityCacheData.java:305-313 | The id joins the relation, creating it if absent. Other relations are unchanged. |
| `SbbEntityCache.WithoutChild` | cache/src/main/java/org/mobicents/slee/runtime/cache/SbbEntityCacheData.java:294-303 | The id leaves the relation, and its other ids stay. Other relations are unchanged, and an absent relation is not created. |
| `SbbEntityCache.WithoutRelation` | cache/src/main/java/org/mobicents/slee/runtime/cache/SbbEntityCacheData.java:329-334 | The relation is gone and the other relations are unchanged. |
| `SbbEntityCache.AddedChildIsAChild` | cache/src/main/java/org/mobicents/slee/runtime/cache/SbbEntityCacheData.java:305-313 | Adding an id to any relation adds exactly that id to the set of all children. |
| `SbbEntityCache.RemovedRelationChildren` | cache/src/main/java/org/mobicents/slee/runtime/cache/SbbEntityCacheData.java:329-334 | After removing a relation, all children are exactly the ids some other relation holds. |
| `SbbEntityCache.SbbEntityCacheData.constructor` | cache/src/main/java/org/mobicents/slee/runtime/cache/SbbEntityCacheData.java:44-99 | A new entity has no activity contexts, masks, CMP fields or relations. |
| `SbbEntityCache.SbbEntityCacheData.AttachActivityContext` | cache/src/main/java/org/mobicents/slee/runtime/cache/SbbEntityCacheData.java:125-127 | The activity context joins the attached set; attaching twice is the same as once. |
| `SbbEntityCache.SbbEntityCacheData.DetachActivityContext` | cache/src/main/java/org/mobicents/slee/runtime/cache/SbbEntityCacheData.java:129-134 | The activity context leaves the attached set. |
| `SbbEntityCache.SbbEntityCacheData.GetMaskedEventTypes` | cache/src/main/java/org/mobicents/slee/runtime/cache/SbbEntityCacheData.java:136-145 | With no mask stored for the activity context the result is the empty set; otherwise it is the stored mask. |
| `SbbEntityCache.SbbEntityCacheData.SetEventMask` | cache/src/main/java/org/mobicents/slee/runtime/cache/SbbEntityCacheData.java:147-161 | The masks become `WithMask` of the old ones, and `getMaskedEventTypes` then returns the mask set. |
| `SbbEntityCache.SbbEntityCacheData.UpdateEventMask` | cache/src/main/java/org/mobicents/slee/runtime/cache/SbbEntityCacheData.java:163-177 | The masks become `WithMaskUpdate` of the old ones. The masked types are the old ones plus the new. |
| `SbbEntityCache.SbbEntityCacheData.SetCmpField` | cache/src/main/java/org/mobicents/slee/runtime/cache/SbbEntityCacheData.java:245-252 | The fields become `WithCmpField` of the old ones, and `getCmpField` then returns the value set. |
| `SbbEntityCache.SbbEntityCacheData.GetCmpField` | cache/src/main/java/org/mobicents/slee/runtime/cache/SbbEntityCacheData.java:254-266 | A field never set reads as null; a set field reads as the value stored for it. |
| `SbbEntityCache.SbbEntityCacheData.GetChildRelationSbbEntities` | cache/src/main/java/org/mobicents/slee/runtime/cache/SbbEntityCacheData.java:268-279 | An absent relation has no ids; a present one has exactly the ids stored in it. |
| `SbbEntityCache.SbbEntityCacheData.ChildRelationSbbEntitiesSize` | cache/src/main/java/org/mobicents/slee/runtime/cache/SbbEntityCacheData.java:281-292 | The size is the number of distinct ids in the relation, and 0 for an absent relation. |
| `SbbEntityCache.SbbEntityCacheData.ChildRelationHasSbbEntity` | cache/src/main/java/org/mobicents/slee/runtime/cache/SbbEntityCacheData.java:315-327 | True iff the id is among the relation's entities. |
| `SbbEntityCache.SbbEntityCacheData.AddChildRelationSbbEntity` | cache/src/main/java/org/mobicents/slee/runtime/cache/SbbEntityCacheData.java:305-313 | The relations become `WithChild` of the old ones, and `childRelationHasSbbEntity` then holds. |
| `SbbEntityCache.SbbEntityCacheData.RemoveChildRelationSbbEntity` | cache/src/main/java/org/mobicents/slee/runtime/cache/SbbEntityCacheData.java:294-303 | The relations become `WithoutChild` of the old ones, and `childRelationHasSbbEntity` then fails. |
| `SbbEntityCache.SbbEntityCacheData.RemoveChildRelation` | cache/src/main/java/org/mobicents/slee/runtime/cache/SbbEntityCacheData.java:329-334 | The relations become `WithoutRelation` of the old ones, and the relation's size is then 0. |
| `SbbEntityCache.SbbEntityCacheData.GetAllChildSbbEntities` | cache/src/main/java/org/mobicents/slee/runtime/cache/SbbEntityCacheData.java:336-352 | The nested loop returns exactly the union of the ids over all relations, and the empty set when there is no relation. |
| `Cluster.ReplaceColons` | core/src/main/java/org/mobicents/cluster/DefaultMobicentsCluster.java:238 | Every colon of the address becomes an underscore; every other character and the length are kept. |
| `Cluster.JoinElements` | core/src/main/java/org/mobicents/cluster/DefaultMobicentsCluster.java:239 | A non-empty FQN's string starts with the separator. A one-element FQN is the separator followed by the element. |
| `Cluster.JoinElementsConcat` | core/src/main/java/org/mobicents/cluster/DefaultMobicentsCluster.java:239 | The string of two FQNs joined is the string of the first followed by that of the second. So the string is each element preceded by the separator, in order. |
| `Cluster.FqnString` | core/src/main/java/org/mobicents/cluster/DefaultMobicentsCluster.java:239 | Every FQN's string form, the root included, starts with the separator. |
| `Cluster.BuddyBackupPath` | core/src/main/java/org/mobicents/cluster/DefaultMobicentsCluster.java:238-239 | The path is as long as the backup root, the address and the base FQN's string together, and the address part holds no colon. |
| `Cluster.BuddyBackupPathLayout` | core/src/main/java/org/mobicents/cluster/DefaultMobicentsCluster.java:238-239 | The backup path is laid out in three parts. <br>- It starts with `/_BUDDY_BACKUP_/`. <br>- Next comes the lost address with every colon turned into `_` and other characters kept. <br>- Then comes the base FQN from its leading `/`, and the lengths add up. |
| `Cluster.LostMembers` | core/src/main/java/org/mobicents/cluster/DefaultMobicentsCluster.java:180-181 | A member is lost iff it is in the old view and not in the new one. |
| `Cluster.LostMembersStep` | core/src/main/java/org/mobicents/cluster/DefaultMobicentsCluster.java:180-181 | Walking the old view one member further appends that member to the lost members exactly when the new view lacks it. |
| `Cluster.LostMembersNoDuplicates` | core/src/main/java/org/mobicents/cluster/DefaultMobicentsCluster.java:180-181 | An old view with no duplicate member loses each member at most once. |
| `Cluster.LostMembersPrefix` | core/src/main/java/org/mobicents/cluster/DefaultMobicentsCluster.java:180-205 | The members found lost by a walk cut short form a prefix of all lost members. |
| `Cluster.WithRecords` | core/src/main/java/org/mobicents/cluster/DefaultMobicentsCluster.java:268-285 | Writing the records of one base FQN changes no other base FQN and creates none. |
| `Cluster.RecordStepCases` | core/src/main/java/org/mobicents/cluster/DefaultMobicentsCluster.java:273-285 | A record the lost member does not own, a null owner included, is skipped. A record is taken iff the lost member owns it, the per-record elector (when used) picks the local node, and `wonOwnership` does not throw. A step fails only on the lost member's record, and only by the elector or `wonOwnership` throwing. |
| `Cluster.TakeSet` | core/src/main/java/org/mobicents/cluster/DefaultMobicentsCluster.java:268-286 | A record is taken over iff its step is a take: it is owned by the lost member, the per-record elector (when used) picks the local node, and `wonOwnership` does not throw. |
| `Cluster.TakenOver` | core/src/main/java/org/mobicents/cluster/DefaultMobicentsCluster.java:285 | The records taken are owned by the local node, and every other record keeps its owner. |
| `Cluster.TakeSetOwnedByLost` | core/src/main/java/org/mobicents/cluster/DefaultMobicentsCluster.java:273-274 | Every record taken over was owned by the lost member; null owners and other owners are never taken. |
| `Cluster.GenericPassTakesAllLost` | core/src/main/java/org/mobicents/cluster/DefaultMobicentsCluster.java:268-296 | A successful pass without a per-record elector takes over exactly the lost member's records. Afterwards no record is owned by the lost member. |
| `Cluster.StoreMovedRefl` | core/src/main/java/org/mobicents/cluster/DefaultMobicentsCluster.java:302-309 | An unchanged store moved nothing, as after a rollback. |
| `Cluster.StoreMovedTrans` | core/src/main/java/org/mobicents/cluster/DefaultMobicentsCluster.java:180-205 | Records moved away from one set of lost members and then from another were moved away from their union. |
| `Cluster.StoreMovedWiden` | core/src/main/java/org/mobicents/cluster/DefaultMobicentsCluster.java:180-205 | Records moved away from some lost members were moved away from any list that contains them. |
| `Cluster.TakenOverMoves` | core/src/main/java/org/mobicents/cluster/DefaultMobicentsCluster.java:274-285 | Giving records owned by the lost member to the local node moves only such records, and only to the local node. |
| `Cluster.WonCalls` | core/src/main/java/org/mobicents/cluster/DefaultMobicentsCluster.java:283 | There is one `wonOwnership` call per taken record, in walk order, for the listener. |
| `Cluster.HookThenWonCallsFor` | core/src/main/java/org/mobicents/cluster/DefaultMobicentsCluster.java:266-283 | A pass's calls go to its own listener, and its fail-over hook names its own lost member. |
| `Cluster.WonCallsSnoc` | core/src/main/java/org/mobicents/cluster/DefaultMobicentsCluster.java:283 | One more taken record adds exactly one `wonOwnership` call at the end. |
| `Cluster.WonCallsExactly` | core/src/main/java/org/mobicents/cluster/DefaultMobicentsCluster.java:283 | Calls for a duplicate-free list of the taken records call `wonOwnership` exactly once per taken record. |
| `Cluster.TakeOneMore` | core/src/main/java/org/mobicents/cluster/DefaultMobicentsCluster.java:285 | Setting one more record's owner to the local node is taking over one more record. |
| `Cluster.WalkedStart` | core/src/main/java/org/mobicents/cluster/DefaultMobicentsCluster.java:268 | Before the walk, every record is pending and none has been taken. |
| `Cluster.WalkedStep` | core/src/main/java/org/mobicents/cluster/DefaultMobicentsCluster.java:268-286 | A step that does not fail keeps the walk's invariant. A take adds the record to the taken set and the call list; a skip adds nothing. |
| `Cluster.WalkedAll` | core/src/main/java/org/mobicents/cluster/DefaultMobicentsCluster.java:268-296 | A walk that visits every record without failing has taken exactly the take set. |
| `Cluster.StepRecord` | core/src/main/java/org/mobicents/cluster/DefaultMobicentsCluster.java:273-285 | One record's step is `RecordStep`. The listener is called iff the record is the lost member's and the per-record elector, if used, picked the local node. A take is always preceded by that call. |
| `Cluster.WalkRecords` | core/src/main/java/org/mobicents/cluster/DefaultMobicentsCluster.java:268-296 | The walk over the records has four results. <br>- It succeeds iff no record's step fails. <br>- The taken records are part of the take set, and all of it on success. <br>- The output gives exactly the taken records to the local node. <br>- The calls are one `wonOwnership` per taken record. |
| `Cluster.ViewChangeCallsAppend` | core/src/main/java/org/mobicents/cluster/DefaultMobicentsCluster.java:185-203 | Appending one takeover pass for a registered listener and a lost member keeps the view change's call log well formed. The pass must be one the controller runs: a listener with its own elector, or a local node that was elected. |
| `Cluster.UntouchedOutsideTrans` | core/src/main/java/org/mobicents/cluster/DefaultMobicentsCluster.java:185-203 | Two steps that leave every base FQN outside the taken-over groups alone leave them alone together. |
| `Cluster.ViewChangeCallsConcat` | core/src/main/java/org/mobicents/cluster/DefaultMobicentsCluster.java:180-205 | The call logs of two lost members' processing concatenate into one log for both. |
| `Cluster.NothingLostNothingMoved` | core/src/main/java/org/mobicents/cluster/DefaultMobicentsCluster.java:180-181 | When no member is lost, the store is unchanged. |
| `Cluster.InsertionIndex` | core/src/main/java/org/mobicents/cluster/DefaultMobicentsCluster.java:91 | The insertion point comes after every listener of lower or equal priority and before the first of higher priority. |
| `Cluster.InsertByPriority` | core/src/main/java/org/mobicents/cluster/DefaultMobicentsCluster.java:433 | The registry grows by exactly the new listener, counted as a multiset. The listener sits at the insertion index; the listeners before it keep their places and those after it move up by one. |
| `Cluster.InsertKeepsRegistry` | core/src/main/java/org/mobicents/cluster/DefaultMobicentsCluster.java:428-433 | Inserting a listener with a new base FQN keeps the registry sorted by priority and unique per base FQN, and adds exactly that listener. |
| `Cluster.IndexOf` | core/src/main/java/org/mobicents/cluster/DefaultMobicentsCluster.java:444 | The listener's position is found iff it is registered, and the position holds it. |
| `Cluster.WithoutListener` | core/src/main/java/org/mobicents/cluster/DefaultMobicentsCluster.java:444 | Removing a registered listener drops exactly one occurrence of it and shortens the registry by one. Removing an unregistered listener changes nothing. |
| `Cluster.RemoveKeepsRegistry` | core/src/main/java/org/mobicents/cluster/DefaultMobicentsCluster.java:444 | Removing a listener keeps the registry sorted and unique, and removes exactly that listener. |
| `Cluster.Parent` | core/src/main/java/org/mobicents/cluster/DefaultMobicentsCluster.java:321 | The parent of the root is the root. The parent of any other FQN is that FQN without its last element. |
| `Cluster.MemberPasses` | core/src/main/java/org/mobicents/cluster/DefaultMobicentsCluster.java:185-203 | The passes for one lost member number at most one per listener. Each is for a registered listener, that member, the local node and the view, and uses the per-record elector iff the listener has one. Every listener with its own elector gets a pass, and every listener does when the local node is elected. |
| `Cluster.MemberPassesStep` | core/src/main/java/org/mobicents/cluster/DefaultMobicentsCluster.java:185-203 | One more listener appends its pass, if it gets one, at the end. |
| `Cluster.FirstGeneric` | core/src/main/java/org/mobicents/cluster/DefaultMobicentsCluster.java:188-196 | This is the position of the first listener without its own elector. Every listener before it has one, and the listener there has none. |
| `Cluster.Reached` | core/src/main/java/org/mobicents/cluster/DefaultMobicentsCluster.java:185-203 | This is how far the listener loop gets. It reaches the end iff the generic elector answers, or every listener has its own elector. Every listener before the stop point has its own elector unless the elector answered. |
| `Cluster.ViewPasses` | core/src/main/java/org/mobicents/cluster/DefaultMobicentsCluster.java:180-205 | The passes of a view change are for lost members, registered listeners and the local node. Every lost member gets a pass for every listener eligible for one. |
| `Cluster.ViewPassesSnoc` | core/src/main/java/org/mobicents/cluster/DefaultMobicentsCluster.java:180-205 | One more lost member appends its passes at the end. |
| `Cluster.PassCalledIntro` | core/src/main/java/org/mobicents/cluster/DefaultMobicentsCluster.java:266-283 | A call log records a pass's calls when it starts with the fail-over hook unless the backup fetch failed. On success it must then hold exactly one `wonOwnership` per taken record. |
| `Cluster.RunsDoneStep` | core/src/main/java/org/mobicents/cluster/DefaultMobicentsCluster.java:185-203 | A pass on a base FQN no earlier pass touched extends the record of passes done. Each pass's outcome and calls are measured from the store before the loop. |
| `Cluster.RunsDoneHooks` | core/src/main/java/org/mobicents/cluster/DefaultMobicentsCluster.java:266 | Every pass whose backup fetch did not fail called the fail-over hook. |
| `Cluster.HooksCalledConcat` | core/src/main/java/org/mobicents/cluster/DefaultMobicentsCluster.java:180-205 | The hook calls of two runs of passes add up over the concatenated logs. |
| `Cluster.MemberNoLostOwner` | core/src/main/java/org/mobicents/cluster/DefaultMobicentsCluster.java:185-203 | Suppose the local node was elected and every pass for a lost member succeeded. Then no record under a listener without its own elector is owned by that member. |
| `Cluster.NoLostOwnerStep` | core/src/main/java/org/mobicents/cluster/DefaultMobicentsCluster.java:180-205 | Clearing one more lost member keeps the earlier lost members cleared, given records move only to the local node and it is not lost. |
| `Cluster.MemberLoopStart` | core/src/main/java/org/mobicents/cluster/DefaultMobicentsCluster.java:185 | Before the first listener, no pass has run and nothing has moved. |
| `Cluster.MemberLoopSkip` | core/src/main/java/org/mobicents/cluster/DefaultMobicentsCluster.java:198 | A listener without its own elector gets no pass, and changes nothing, when the local node was not elected. |
| `Cluster.MemberLoopStep` | core/src/main/java/org/mobicents/cluster/DefaultMobicentsCluster.java:185-203 | A pass done as `PerformTakeOver` promises extends the lost member's progress by that pass: its outcome, its calls and its moves. |
| `Cluster.MemberLoopDone` | core/src/main/java/org/mobicents/cluster/DefaultMobicentsCluster.java:185-203 | The listener loop stops at `Reached`: at the end, or where the generic elector throws. There the member's takeover is done: passes, outcomes, calls and moves. When the local node was elected, that includes the no-lost-owner promise. |
| `Cluster.ViewProgressStart` | core/src/main/java/org/mobicents/cluster/DefaultMobicentsCluster.java:180 | Before the first lost member, nothing is done. |
| `Cluster.ViewProgressStep` | core/src/main/java/org/mobicents/cluster/DefaultMobicentsCluster.java:180-205 | One more lost member's takeover extends the thread's progress to that member. This covers the passes, hook calls, moves and the no-lost-owner promise. It also covers the outcomes: when the local node is in the view and no member is lost twice, every pass's outcome is its `TakeOverSucceeds` on the store before the thread. |
| `Cluster.SameOwnedSameOutcome` | core/src/main/java/org/mobicents/cluster/DefaultMobicentsCluster.java:273-285 | A pass looks only at which records its lost member owns. Two groups with the same keys and the same records owned by that member give the same outcome and the same take set. |
| `Cluster.MovedKeepsOwned` | core/src/main/java/org/mobicents/cluster/DefaultMobicentsCluster.java:180-205 | Moves made for other lost members, to the local node, leave the records a further member owns exactly as they were. |
| `Cluster.OutcomesFromStep` | core/src/main/java/org/mobicents/cluster/DefaultMobicentsCluster.java:180-205 | The passes for a lost member not taken over before have the outcomes they would have had on the store the thread started from. |
| `Cluster.AllOkFromStart` | core/src/main/java/org/mobicents/cluster/DefaultMobicentsCluster.java:180-205 | With outcomes pinned to the starting store, every pass succeeded iff every pass succeeds on the records it started from. |
| `Cluster.DefaultMobicentsCluster.constructor` | core/src/main/java/org/mobicents/cluster/DefaultMobicentsCluster.java:90-104 | A clustered cache starts from the channel's view, and a local one has no view. Both start with empty registries. |
| `Cluster.DefaultMobicentsCluster.GetClusterMembers` | core/src/main/java/org/mobicents/cluster/DefaultMobicentsCluster.java:116-131 | With a current view, the members are that view. Without one, they are `[local]`, or `[]` when the local address is null. |
| `Cluster.DefaultMobicentsCluster.IsHeadMember` | core/src/main/java/org/mobicents/cluster/DefaultMobicentsCluster.java:136-145 | True iff the local address is null, or the member list is non-empty and starts with the local address. |
| `Cluster.DefaultMobicentsCluster.IsSingleMember` | core/src/main/java/org/mobicents/cluster/DefaultMobicentsCluster.java:151-160 | True iff the local address is null or exactly one member is listed. |
| `Cluster.DefaultMobicentsCluster.NodeRemovedListener` | core/src/main/java/org/mobicents/cluster/DefaultMobicentsCluster.java:319-325 | A removal is dispatched iff it is remote and a data-removal listener is registered for the removed node's parent; that listener is the one notified. |
| `Cluster.DefaultMobicentsCluster.AddFailOverListener` | core/src/main/java/org/mobicents/cluster/DefaultMobicentsCluster.java:424-434 | The result is true iff no registered listener has the same base FQN. When false, the registry is unchanged; when true, the listener is inserted by priority. The registry stays sorted and unique. |
| `Cluster.DefaultMobicentsCluster.RemoveFailOverListener` | core/src/main/java/org/mobicents/cluster/DefaultMobicentsCluster.java:440-445 | The result is true iff the listener was registered. Exactly that listener leaves, and the registry stays sorted and unique. |
| `Cluster.DefaultMobicentsCluster.AddDataRemovalListener` | core/src/main/java/org/mobicents/cluster/DefaultMobicentsCluster.java:451-453 | The result is true iff no listener was registered for the base FQN. An existing listener is never replaced. |
| `Cluster.DefaultMobicentsCluster.RemoveDataRemovalListener` | core/src/main/java/org/mobicents/cluster/DefaultMobicentsCluster.java:459-461 | The result is true iff a listener was registered for the base FQN, which is then unregistered. |
| `Cluster.DefaultMobicentsCluster.PerformTakeOver` | core/src/main/java/org/mobicents/cluster/DefaultMobicentsCluster.java:217-315 | The pass has these outcomes. <br>- It succeeds iff the backup fetch, the fail-over hook and every record step succeed. <br>- On success, exactly the take set passes to the local node, with one `wonOwnership` per taken record after the hook. <br>- On failure under a transaction manager, the store is unchanged. <br>- In every case only the lost member's records move, only to the local node, and other base FQNs are untouched. <br>- All calls go to this listener. |
| `Cluster.DefaultMobicentsCluster.TakeOverTransaction` | core/src/main/java/org/mobicents/cluster/DefaultMobicentsCluster.java:261-314 | This is the second transaction, run once the backup fetch succeeded. <br>- The fail-over hook is called first. <br>- It succeeds iff the hook and every record step succeed; then exactly the take set passes to the local node, with one `wonOwnership` per taken record. <br>- On failure under a transaction manager the store is unchanged. <br>- Only the lost member's records under the listener's base FQN move, and only to the local node. |
| `Cluster.DefaultMobicentsCluster.TakeOverListener` | core/src/main/java/org/mobicents/cluster/DefaultMobicentsCluster.java:186-202 | One listener of the loop stops it iff the listener has no elector of its own and the generic elector throws. Otherwise the member's progress extends over that listener: a pass when the listener has its own elector or the local node is elected, and nothing when another node is elected. |
| `Cluster.DefaultMobicentsCluster.TakeOverLostMember` | core/src/main/java/org/mobicents/cluster/DefaultMobicentsCluster.java:185-203 | This is the listener loop for one lost member. <br>- It completes iff the loop reaches every listener: the generic elector answered, or every listener has its own elector. <br>- The passes run are `MemberPasses` over the listeners reached. <br>- Each pass succeeds iff `TakeOverSucceeds`. On success its group then holds the take set given to the local node; on failure under a transaction manager its group is unchanged. <br>- The fail-over hook is called for every pass whose backup fetch succeeded, and `wonOwnership` for every record taken. <br>- Suppose the local node was elected and every pass succeeded. Then no record under a listener without its own elector is still owned by the lost member. <br>- Only the member's records move, only to the local node, and only in groups the local node may take over. |
| `Cluster.DefaultMobicentsCluster.TakeOverNextLost` | core/src/main/java/org/mobicents/cluster/DefaultMobicentsCluster.java:181-203 | One lost member's takeover extends the thread's progress over the members before it. It completes iff the listener loop reaches its end. |
| `Cluster.DefaultMobicentsCluster.TakeOverOldMember` | core/src/main/java/org/mobicents/cluster/DefaultMobicentsCluster.java:181-205 | One old-view member still in the new view changes nothing. A lost one extends the thread's progress to it. The thread ends there iff the generic elector throws, which can only happen at the first lost member. |
| `Cluster.DefaultMobicentsCluster.TakeOverLostMembers` | core/src/main/java/org/mobicents/cluster/DefaultMobicentsCluster.java:179-206 | This is the thread over the old view. <br>- It completes iff no member is lost or the listener loop reaches its end. Then it has processed all lost members, and otherwise only the first. <br>- The passes run are `ViewPasses` of the processed members over the listeners reached, and the fail-over hook is called for each pass whose backup fetch succeeded. <br>- Suppose the local node is in the new view and the old view lists no member twice. Then each pass's outcome is `TakeOverSucceeds` on its group as it was before the thread, so "every pass succeeded" depends only on the environment and the old store. <br>- Suppose the local node was elected, is in the new view and every pass succeeded. Then no record under a listener without its own elector is owned by any lost member. <br>- Only processed lost members' records move, only to the local node, and only within groups it may take over. |
| `Cluster.DefaultMobicentsCluster.OnViewChange` | core/src/main/java/org/mobicents/cluster/DefaultMobicentsCluster.java:167-211 | The current view becomes the new view, and the registries stay valid. Then the thread runs over the captured old view with the promises of `TakeOverLostMembers`. <br>- It completes iff no member is lost or the listener loop reaches its end. <br>- When complete, all lost members are processed. <br>- The passes and hook calls are those of `ViewPasses`. <br>- With the local node in the view and no member listed twice in the old view, each pass's outcome is its success on the store before the change. <br>- With the local node elected and in the view, and every pass successful, no lost member owns a record under a listener without its own elector. <br>- Only lost members' records move, and only to the local node. |

## Code and design description

Where the design and the code differ, the model follows the code:

- **Concurrent view changes.** The design calls for view changes to be
  serialized. The code instead starts an unsynchronized thread per view
  change, and that thread reads the mutable `currentView` field, so passes
  are not serialized. The model runs one pass sequentially over the new
  view captured at the change.
- **A failing elector.** The design says an exception must not abort the
  processing of the remaining groups and lost members. In the code, a
  throwing generic elector (DefaultMobicentsCluster.java:196) is outside
  any `try` and ends the thread. The model stops the view change there
  (`completed` false), and the remaining lost members are not processed.
- **Rollback.** The design rolls back a failed takeover. The code rolls back
  only a transaction the pass created itself (DefaultMobicentsCluster.java:302-309).
  With no transaction manager, the owner rewrites made before the failure
  persist. The model keeps them in that case.
- **Other statuses.** Statuses other than COMMITTED and ROLLEDBACK run no
  action in the code (TransactionSynchronization.java:48). The design's
  "exactly one fires" holds only for those two outcomes.

## Left out

- Threading is left out: the per-view-change thread, `synchronized`, and the concurrent and synchronized collections. Each operation is a sequential method.
- The runnable reads the live `currentView` field; the model uses the new view captured at the change.
- JBoss Cache internals are left out: forced data gravitation, replication and buddy groups. They are reduced to the backup path and an environment predicate saying whether the fetch fails.
- The takeover is split into two transactions. The first transaction covers only gravitation and writes nothing to the store the model has, so only the second one is modelled, as snapshot and restore.
- In the runnable's thread there is no ambient transaction, so a transaction is created exactly when a transaction manager exists. A failure of commit or rollback itself is not modelled.
- Cluster.DefaultMobicentsCluster.PerformTakeOver: the walk's owner writes are applied to the store when the walk ends rather than one record at a time. `wonOwnership` is application code that runs mid-walk and could read or change the half-updated store. The model leaves the hooks' effects out, and the outcome is the same only under that omission.
- Cluster.DefaultMobicentsCluster.TakeOverLostMembers: a pass's effect on its group (`PassDone`: the group after a success, or unchanged after a rolled-back failure) is stated per lost member, by `TakeOverLostMember`, and not lifted to the whole view change. Later passes rewrite the same groups. Whether each pass succeeded is lifted: it is pinned to the store before the thread, but only when the local node is in the new view and the old view lists no member twice. Otherwise a record taken over for one lost member could belong to another lost member, or a member could be taken over twice, and the outcome would depend on the passes before it. The same holds for `OnViewChange`.
- Records whose `ClusteredCacheData` does not exist are not modelled. Every child name under the base FQN is a record, with an owner that may be null.
- A per-record elector that returns null or another address both skip the record; throwing is `None`.
- `FailOverListenerPriorityComparator` is not part of this model. The registry is ordered by an integer priority, ties keeping insertion order, and listeners are equal when all their fields are.
- The listener hooks' bodies (`failOverClusterMember`, `wonOwnership`, `dataRemoved`) are application code. Only the calls, and whether they throw, are modelled.
- The timer's `run` body is application code.
- The scheduled executor's timing and execution are left out; the executor records requests and cancelled futures.
- `System.currentTimeMillis()` is the `now` parameter.
- Timers.TimerTask.Cancel: the shown TimerTask.java declares no `cancel()`. It is modelled as cancelling the task's future on the executor.
- Timers.FaultTolerantScheduler.Remove: FaultTolerantScheduler.java is not part of this model. Its `remove` is modelled as removing the id from the running-task map and, when asked, from the stored timers.
- The `long` delay arithmetic and the elector's 32-bit `shift % size + size` are unbounded integers here. They overflow only for values near 2^63, or for views of more than 2^31 − 6 members.
- `setEventMask` with a null mask is left out. A null mask behaves like the empty one, and the model's masks are sets, which cannot be null.
- SbbEntityCache.SbbEntityCacheData.UpdateEventMask: a null mask argument is not modelled, because the model's masks are sets and cannot be null. In the source, with no mask stored, it stores null (SbbEntityCacheData.java:168), which `getMaskedEventTypes` then returns (line 143). With a mask stored, `addAll(null)` throws a NullPointerException (line 174). `WithMaskUpdate` covers neither case.
- `updateEventMask` adds to the stored set in place; the model replaces the map entry, so aliasing of the stored set is not captured.
- The `Node` API and the lazily cached child-node fields of `SbbEntityCacheData` are left out. Each child node is a map or a set.
- The entity's other attributes are left out: service id, convergence name, parent, root SBB, priority and the like. The shown operations do not touch them.
- Logging and the commented-out listener methods of `DefaultMobicentsCluster` are left out.
