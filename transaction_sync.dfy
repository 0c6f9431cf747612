/**
 * The timers' transaction synchronization: three optional actions bound to
 * the outcome of the ambient transaction.
 */
module TransactionSync {
  import opened Wrappers

  /** The completion codes of `javax.transaction.Status` that the dispatch distinguishes. */
  const StatusCommitted: int := 3
  const StatusRolledBack: int := 4

  /** Which of the three slots an action that ran was taken from. */
  datatype Slot = BeforeCommit | Commit | Rollback

  /** An action that ran, tagged with its slot. */
  datatype Fired<A> = Fired(slot: Slot, action: A)

  /** A synchronization holding the three (possibly null) actions; its fields are final. */
  datatype TransactionSynchronization<A> = TransactionSynchronization(
    beforeCommitAction: Option<A>,
    commitAction: Option<A>,
    rollbackAction: Option<A>)
  {
    /**
     * The actions `afterCompletion(status)` runs, in order: the commit action
     * on COMMITTED, the rollback action on ROLLEDBACK, nothing otherwise; a
     * null action is skipped.
     */
    function AfterCompletion(status: int): (ran: seq<Fired<A>>)
      ensures |ran| <= 1
      ensures forall f :: f in ran ==>
                (f.slot == Commit && status == StatusCommitted && commitAction == Some(f.action)) ||
                (f.slot == Rollback && status == StatusRolledBack && rollbackAction == Some(f.action))
      ensures status == StatusCommitted && commitAction.Some? ==> ran == [Fired(Commit, commitAction.value)]
      ensures status == StatusRolledBack && rollbackAction.Some? ==> ran == [Fired(Rollback, rollbackAction.value)]
    {
      if status == StatusCommitted then
        (match commitAction
         case Some(a) => [Fired(Commit, a)]
         case None => [])
      else if status == StatusRolledBack then
        (match rollbackAction
         case Some(a) => [Fired(Rollback, a)]
         case None => [])
      else
        []
    }

    /** The actions `beforeCompletion()` runs: the before-commit action iff it is not null. */
    function BeforeCompletion(): (ran: seq<Fired<A>>)
      ensures |ran| <= 1
      ensures ran != [] <==> beforeCommitAction.Some?
      ensures forall f :: f in ran ==> f.slot == BeforeCommit && beforeCommitAction == Some(f.action)
    {
      match beforeCommitAction
      case Some(a) => [Fired(BeforeCommit, a)]
      case None => []
    }

    /** Everything the synchronization runs for one transaction that completes with `status`. */
    function Completion(status: int): (ran: seq<Fired<A>>)
      ensures |ran| <= 2
      ensures beforeCommitAction.Some? ==> |ran| > 0 && ran[0] == Fired(BeforeCommit, beforeCommitAction.value)
      ensures forall i :: 0 < i < |ran| ==> ran[i].slot != BeforeCommit
      ensures forall f :: f in ran && f.slot == Commit ==> status == StatusCommitted
      ensures forall f :: f in ran && f.slot == Rollback ==> status == StatusRolledBack
    {
      BeforeCompletion() + AfterCompletion(status)
    }
  }

  /** How many of the actions in `ran` came from `slot`. */
  function CountSlot<A>(ran: seq<Fired<A>>, slot: Slot): (n: nat)
    ensures n <= |ran|
    ensures n == 0 <==> forall f :: f in ran ==> f.slot != slot
  {
    if ran == [] then 0
    else (if ran[0].slot == slot then 1 else 0) + CountSlot(ran[1..], slot)
  }

  /**
   * The gate's contract: once the outcome is final, exactly one of commit and
   * rollback fires, exactly once, when both are present; the before-commit
   * action, if present, fires once and first.
   */
  lemma {:induction false} OutcomeExclusive<A>(sync: TransactionSynchronization<A>, status: int)
    requires status == StatusCommitted || status == StatusRolledBack
    requires sync.commitAction.Some? && sync.rollbackAction.Some?
    ensures CountSlot(sync.Completion(status), Commit) + CountSlot(sync.Completion(status), Rollback) == 1
    ensures CountSlot(sync.Completion(status), BeforeCommit) == (if sync.beforeCommitAction.Some? then 1 else 0)
    ensures sync.beforeCommitAction.Some? ==> sync.Completion(status)[0].slot == BeforeCommit
  {
    var before, after := sync.BeforeCompletion(), sync.AfterCompletion(status);
    var all := sync.Completion(status);
    assert all == before + after;
    if before == [] {
      assert all == after;
      assert after[1..] == [];
    } else {
      assert all[1..] == after;
      assert after[1..] == [];
    }
  }

  /** Any status other than COMMITTED and ROLLEDBACK runs no after-completion action. */
  lemma OtherStatusRunsNothing<A>(sync: TransactionSynchronization<A>, status: int)
    requires status != StatusCommitted && status != StatusRolledBack
    ensures sync.AfterCompletion(status) == []
    ensures sync.Completion(status) == sync.BeforeCompletion()
  {
  }
}
