/**
 * The cluster controller: membership queries, the fail-over and
 * data-removal listener registries, and the ownership takeover run when
 * members leave the view. The replicated cache is a map from base FQN to
 * the records under it (child name to owner address); the transaction
 * manager is a snapshot taken at begin and restored at rollback; the
 * listeners' hooks and the electors are functions of the environment.
 */
module Cluster {
  import opened Wrappers

  /** A member's address in its string form, e.g. "10.0.0.1:7800". */
  type Address = string
  /** A hierarchical cache key: its elements from the root. */
  type Fqn = seq<string>
  type ChildName = string
  /** The records under one base FQN: child name to owner (null until first assigned). */
  type Records = map<ChildName, Option<Address>>
  type Store = map<Fqn, Records>

  const BuddyBackupFqnRoot: string := "/_BUDDY_BACKUP_/"

  /** A resource group: its base FQN, its priority and whether it brings its own per-record elector. */
  datatype FailOverListener = FailOverListener(baseFqn: Fqn, priority: int, hasLocalElector: bool, name: string)

  /** A listener for remote removals of the children of its base FQN. */
  datatype DataRemovalListener = DataRemovalListener(baseFqn: Fqn, name: string)

  /** The calls the controller makes into a resource group's code, in order. */
  datatype Callback =
    | FailOverClusterMember(listener: FailOverListener, lost: Address)
    | WonOwnership(listener: FailOverListener, record: ChildName)

  /**
   * What the controller cannot see: whether buddy replication is on, whether
   * forcing the gravitation of a buddy backup path fails, whether the
   * listener hooks throw, and what a listener's per-record elector answers
   * (`None`: it throws).
   */
  datatype Environment = Environment(
    buddyReplication: bool,
    gravitationFails: string -> bool,
    failOverClusterMemberThrows: (FailOverListener, Address) -> bool,
    wonOwnershipThrows: (FailOverListener, ChildName) -> bool,
    localElect: (FailOverListener, seq<Address>, ChildName) -> Option<Address>)

  /** One takeover pass: a listener, the lost member, the local member, which elector, the view. */
  datatype TakeOver = TakeOver(listener: FailOverListener, lost: Address, local: Address, useLocalElector: bool, view: seq<Address>)

  /** What the takeover loop does with one record. */
  datatype Step = Skip | Take | Fail

  // ---------------------------------------------------------------- paths

  /** `s.replace(":", "_")`. */
  function ReplaceColons(s: string): (r: string)
    ensures |r| == |s|
    ensures forall i :: 0 <= i < |s| ==> r[i] == (if s[i] == ':' then '_' else s[i])
  {
    if s == [] then [] else [if s[0] == ':' then '_' else s[0]] + ReplaceColons(s[1..])
  }

  /** The elements of a FQN, each preceded by a separator. */
  function JoinElements(f: Fqn): (s: string)
    ensures f != [] ==> |s| > 0 && s[0] == '/'
    ensures |f| == 1 ==> s == "/" + f[0]
  {
    if f == [] then "" else "/" + f[0] + JoinElements(f[1..])
  }

  /** The string form of a FQN is that of its leading elements followed by that of the rest. */
  lemma {:induction false} JoinElementsConcat(a: Fqn, b: Fqn)
    ensures JoinElements(a + b) == JoinElements(a) + JoinElements(b)
  {
    if a != [] {
      assert (a + b)[1..] == a[1..] + b;
      JoinElementsConcat(a[1..], b);
    } else {
      assert a + b == b;
    }
  }

  /** The string form of a FQN: "/" for the root, "/a/b" otherwise. */
  function FqnString(f: Fqn): (s: string)
    ensures |s| > 0 && s[0] == '/'
  {
    if f == [] then "/" else JoinElements(f)
  }

  /** Where the dead member's buddy backup of `baseFqn` lives. */
  function BuddyBackupPath(lost: Address, baseFqn: Fqn): (p: string)
    ensures |p| == |BuddyBackupFqnRoot| + |lost| + |FqnString(baseFqn)|
    ensures forall i :: |BuddyBackupFqnRoot| <= i < |BuddyBackupFqnRoot| + |lost| ==> p[i] != ':'
  {
    BuddyBackupFqnRoot + ReplaceColons(lost) + FqnString(baseFqn)
  }

  /**
   * The backup path is the backup root, then the lost member's address with
   * every colon turned into an underscore, then the base FQN from its leading
   * separator.
   */
  lemma BuddyBackupPathLayout(lost: Address, baseFqn: Fqn)
    ensures var p := BuddyBackupPath(lost, baseFqn);
      var n := |BuddyBackupFqnRoot|;
      |p| == n + |lost| + |FqnString(baseFqn)| &&
      p[..n] == BuddyBackupFqnRoot &&
      (forall i :: 0 <= i < |lost| ==> p[n + i] == (if lost[i] == ':' then '_' else lost[i])) &&
      p[n + |lost|] == '/' &&
      p[n + |lost|..] == FqnString(baseFqn)
  {
  }

  // ----------------------------------------------------------- membership

  /** The members of `oldView` missing from `newView`, in `oldView`'s order. */
  function LostMembers(oldView: seq<Address>, newView: seq<Address>): (lost: seq<Address>)
    ensures forall a :: a in lost <==> a in oldView && a !in newView
    ensures |lost| <= |oldView|
  {
    if oldView == [] then []
    else
      var prefix, last := oldView[..|oldView| - 1], oldView[|oldView| - 1];
      assert oldView == prefix + [last];
      LostMembers(prefix, newView) + (if last in newView then [] else [last])
  }

  /** No member occurs twice. */
  predicate NoDuplicates(s: seq<Address>)
  {
    forall i, j :: 0 <= i < j < |s| ==> s[i] != s[j]
  }

  /** A list with one more member has no duplicates iff the list had none and lacked that member. */
  lemma NoDuplicatesSnoc(s: seq<Address>, a: Address)
    ensures NoDuplicates(s + [a]) <==> NoDuplicates(s) && a !in s
  {
    var t := s + [a];
    if NoDuplicates(t) {
      forall i, j | 0 <= i < j < |s|
        ensures s[i] != s[j]
      {
        assert t[i] == s[i] && t[j] == s[j];
      }
      forall k | 0 <= k < |s|
        ensures s[k] != a
      {
        assert t[k] == s[k] && t[|s|] == a;
      }
    }
  }

  /** A view without duplicates loses each member at most once. */
  lemma {:induction false} LostMembersNoDuplicates(oldView: seq<Address>, newView: seq<Address>)
    requires NoDuplicates(oldView)
    ensures NoDuplicates(LostMembers(oldView, newView))
  {
    if oldView != [] {
      var prefix, last := oldView[..|oldView| - 1], oldView[|oldView| - 1];
      assert oldView == prefix + [last];
      NoDuplicatesSnoc(prefix, last);
      LostMembersNoDuplicates(prefix, newView);
      if last !in newView {
        NoDuplicatesSnoc(LostMembers(prefix, newView), last);
      }
    }
  }

  /** One more member of the old view adds it to the lost members exactly when the new view lacks it. */
  lemma LostMembersStep(oldView: seq<Address>, i: nat, newView: seq<Address>)
    requires i < |oldView|
    ensures LostMembers(oldView[..i + 1], newView) ==
            LostMembers(oldView[..i], newView) + (if oldView[i] in newView then [] else [oldView[i]])
  {
    assert oldView[..i + 1][..i] == oldView[..i];
  }

  /** Processing the old view member by member finds the lost members in order. */
  lemma {:induction false} LostMembersPrefix(oldView: seq<Address>, k: nat, newView: seq<Address>)
    requires k <= |oldView|
    ensures LostMembers(oldView[..k], newView) <= LostMembers(oldView, newView)
    decreases |oldView| - k
  {
    if k < |oldView| {
      LostMembersPrefix(oldView, k + 1, newView);
      assert oldView[..k + 1][..k] == oldView[..k];
    } else {
      assert oldView[..k] == oldView;
    }
  }

  // -------------------------------------------------------------- takeover

  function RecordsAt(store: Store, base: Fqn): Records
  {
    if base in store then store[base] else map[]
  }

  function WithRecords(store: Store, base: Fqn, recs: Records): (r: Store)
    ensures r.Keys == store.Keys
    ensures base in store ==> r[base] == recs
    ensures forall f :: f in store && f != base ==> r[f] == store[f]
  {
    if base in store then store[base := recs] else store
  }

  /**
   * One iteration of the takeover loop: a record not owned by the lost
   * member is skipped; otherwise the per-record elector, when used, must
   * pick the local member (a throw fails the pass); then `wonOwnership` is
   * called (a throw fails the pass) and the record is taken.
   */
  function RecordStep(env: Environment, p: TakeOver, name: ChildName, owner: Option<Address>): Step
  {
    if owner != Some(p.lost) then Skip
    else if p.useLocalElector && env.localElect(p.listener, p.view, name).None? then Fail
    else if p.useLocalElector && env.localElect(p.listener, p.view, name) != Some(p.local) then Skip
    else if env.wonOwnershipThrows(p.listener, name) then Fail
    else Take
  }

  /**
   * Only the lost member's records are touched; such a record is taken iff
   * the per-record elector, when used, picks the local member and
   * `wonOwnership` does not throw; a step fails only by a throw.
   */
  lemma RecordStepCases(env: Environment, p: TakeOver, name: ChildName, owner: Option<Address>)
    ensures owner != Some(p.lost) ==> RecordStep(env, p, name, owner) == Skip
    ensures RecordStep(env, p, name, owner) == Take <==>
              owner == Some(p.lost) &&
              (!p.useLocalElector || env.localElect(p.listener, p.view, name) == Some(p.local)) &&
              !env.wonOwnershipThrows(p.listener, name)
    ensures RecordStep(env, p, name, owner) == Fail ==>
              owner == Some(p.lost) &&
              ((p.useLocalElector && env.localElect(p.listener, p.view, name).None?) ||
               env.wonOwnershipThrows(p.listener, name))
  {
  }

  /** The records a complete pass takes over. */
  function TakeSet(env: Environment, p: TakeOver, recs: Records): (take: set<ChildName>)
    ensures take <= recs.Keys
    ensures forall n :: n in recs ==> (n in take <==> RecordStep(env, p, n, recs[n]) == Take)
  {
    set n | n in recs && RecordStep(env, p, n, recs[n]) == Take
  }

  predicate GravitationFails(env: Environment, p: TakeOver)
  {
    env.buddyReplication && env.gravitationFails(BuddyBackupPath(p.lost, p.listener.baseFqn))
  }

  /** A pass succeeds when the backup fetch, the fail-over hook and every record step succeed. */
  predicate TakeOverSucceeds(env: Environment, p: TakeOver, recs: Records)
  {
    && !GravitationFails(env, p)
    && !env.failOverClusterMemberThrows(p.listener, p.lost)
    && forall n :: n in recs ==> RecordStep(env, p, n, recs[n]) != Fail
  }

  /** The records with those in `won` owned by `local`. */
  function TakenOver(recs: Records, won: set<ChildName>, local: Address): (r: Records)
    ensures r.Keys == recs.Keys
    ensures forall n :: n in recs ==> r[n] == (if n in won then Some(local) else recs[n])
  {
    map n | n in recs :: if n in won then Some(local) else recs[n]
  }

  /** Every record taken over was owned by the lost member. */
  lemma TakeSetOwnedByLost(env: Environment, p: TakeOver, recs: Records)
    ensures forall n :: n in TakeSet(env, p, recs) ==> n in recs && recs[n] == Some(p.lost)
  {
  }

  /**
   * Without a per-record elector, a successful pass takes over exactly the
   * records the lost member owned, and afterwards none of them is still
   * owned by it: each is owned by the local member.
   */
  lemma {:induction false} GenericPassTakesAllLost(env: Environment, p: TakeOver, recs: Records)
    requires !p.useLocalElector && p.local != p.lost
    requires TakeOverSucceeds(env, p, recs)
    ensures TakeSet(env, p, recs) == set n | n in recs && recs[n] == Some(p.lost)
    ensures forall n :: n in recs && recs[n] == Some(p.lost) ==>
              TakenOver(recs, TakeSet(env, p, recs), p.local)[n] == Some(p.local)
    ensures forall n :: n in recs ==> TakenOver(recs, TakeSet(env, p, recs), p.local)[n] != Some(p.lost)
  {
    var take := TakeSet(env, p, recs);
    var owned := set n | n in recs && recs[n] == Some(p.lost);
    forall n | n in owned
      ensures n in take
    {
      assert RecordStep(env, p, n, recs[n]) != Fail;
    }
  }

  /** A record that some pass leaves owned by its old owner or moves to the local member. */
  ghost predicate RecordsMoved(before: Records, after: Records, lost: seq<Address>, local: Address)
  {
    && before.Keys == after.Keys
    && forall n :: n in before ==>
         after[n] == before[n] || (before[n].Some? && before[n].value in lost && after[n] == Some(local))
  }

  /** Only records owned by a member of `lost` changed, and only to the local member. */
  ghost predicate StoreMoved(before: Store, after: Store, lost: seq<Address>, local: Address)
  {
    && before.Keys == after.Keys
    && forall f :: f in before ==> RecordsMoved(before[f], after[f], lost, local)
  }

  lemma StoreMovedRefl(store: Store, lost: seq<Address>, local: Address)
    ensures StoreMoved(store, store, lost, local)
  {
  }

  /** Records moved in two steps moved for the union of the lost members. */
  lemma StoreMovedTrans(a: Store, b: Store, c: Store, lost1: seq<Address>, lost2: seq<Address>, local: Address)
    requires StoreMoved(a, b, lost1, local) && StoreMoved(b, c, lost2, local)
    ensures StoreMoved(a, c, lost1 + lost2, local)
  {
    forall f | f in a
      ensures RecordsMoved(a[f], c[f], lost1 + lost2, local)
    {
      assert RecordsMoved(a[f], b[f], lost1, local);
      assert RecordsMoved(b[f], c[f], lost2, local);
    }
  }

  /** Moved for some lost members is moved for any list that holds them. */
  lemma StoreMovedWiden(a: Store, b: Store, lost: seq<Address>, more: seq<Address>, local: Address)
    requires StoreMoved(a, b, lost, local)
    requires forall m :: m in lost ==> m in more
    ensures StoreMoved(a, b, more, local)
  {
    forall f | f in a
      ensures RecordsMoved(a[f], b[f], more, local)
    {
      assert RecordsMoved(a[f], b[f], lost, local);
    }
  }

  /** Taking over records owned by `lost` moves only such records. */
  lemma TakenOverMoves(store: Store, base: Fqn, won: set<ChildName>, lost: Address, local: Address)
    requires forall n :: n in won && n in RecordsAt(store, base) ==> RecordsAt(store, base)[n] == Some(lost)
    ensures StoreMoved(store, WithRecords(store, base, TakenOver(RecordsAt(store, base), won, local)), [lost], local)
  {
    var after := WithRecords(store, base, TakenOver(RecordsAt(store, base), won, local));
    forall f | f in store
      ensures RecordsMoved(store[f], after[f], [lost], local)
    {
    }
  }

  /** The calls `wonOwnership` received: one per record of `names`, for `listener`. */
  ghost predicate WonExactly(won: seq<Callback>, listener: FailOverListener, names: set<ChildName>)
  {
    && |won| == |names|
    && (forall i :: 0 <= i < |won| ==> won[i].WonOwnership? && won[i].listener == listener && won[i].record in names)
    && (forall n :: n in names ==> WonOwnership(listener, n) in won)
  }

  /** The `wonOwnership` calls for `names`, in that order. */
  function WonCalls(listener: FailOverListener, names: seq<ChildName>): (won: seq<Callback>)
    ensures |won| == |names|
    ensures forall i :: 0 <= i < |names| ==> won[i] == WonOwnership(listener, names[i])
  {
    if names == [] then []
    else WonCalls(listener, names[..|names| - 1]) + [WonOwnership(listener, names[|names| - 1])]
  }

  /** Every call in `cs` goes to `listener`, and every fail-over hook names `lost`. */
  ghost predicate CallsFor(cs: seq<Callback>, listener: FailOverListener, lost: Address)
  {
    forall i :: 0 <= i < |cs| ==>
      cs[i].listener == listener && (cs[i].FailOverClusterMember? ==> cs[i].lost == lost)
  }

  /** The fail-over hook followed by ownership calls is a sequence of calls for one listener. */
  lemma HookThenWonCallsFor(start: seq<Callback>, cs: seq<Callback>, listener: FailOverListener, lost: Address, names: seq<ChildName>)
    requires cs == start + [FailOverClusterMember(listener, lost)] + WonCalls(listener, names)
    ensures CallsFor(cs[|start|..], listener, lost)
  {
    assert cs[|start|..] == [FailOverClusterMember(listener, lost)] + WonCalls(listener, names);
  }

  lemma WonCallsSnoc(listener: FailOverListener, names: seq<ChildName>, n: ChildName)
    ensures WonCalls(listener, names + [n]) == WonCalls(listener, names) + [WonOwnership(listener, n)]
  {
    assert (names + [n])[..|names|] == names;
  }

  /** Calls for a list of distinct names, one per name of a set, call each exactly once. */
  lemma WonCallsExactly(listener: FailOverListener, names: seq<ChildName>, take: set<ChildName>)
    requires |names| == |take|
    requires forall n :: n in names <==> n in take
    ensures WonExactly(WonCalls(listener, names), listener, take)
  {
    var won := WonCalls(listener, names);
    forall n | n in take
      ensures WonOwnership(listener, n) in won
    {
      var i :| 0 <= i < |names| && names[i] == n;
      assert won[i] == WonOwnership(listener, n);
    }
  }

  /** Taking over one more record. */
  lemma TakeOneMore(recs: Records, taken: set<ChildName>, n: ChildName, local: Address)
    requires n in recs
    ensures TakenOver(recs, taken, local)[n := Some(local)] == TakenOver(recs, taken + {n}, local)
  {
  }


  /**
   * The bookkeeping of a record walk part way through: the records not yet
   * pending were stepped without failure; `taken` are those of them in the
   * take set, and `wonNames` lists them once each in hook-call order.
   */
  ghost predicate Walked(env: Environment, p: TakeOver, recs: Records, pending: set<ChildName>,
                         taken: set<ChildName>, wonNames: seq<ChildName>)
  {
    && pending <= recs.Keys
    && taken == TakeSet(env, p, recs) - pending
    && (forall n :: n in recs && n !in pending ==> RecordStep(env, p, n, recs[n]) != Fail)
    && |wonNames| == |taken|
    && (forall n :: n in wonNames <==> n in taken)
  }

  lemma WalkedStart(env: Environment, p: TakeOver, recs: Records)
    ensures Walked(env, p, recs, recs.Keys, {}, [])
  {
  }

  /** Stepping one more pending record without failure keeps the bookkeeping. */
  lemma WalkedStep(env: Environment, p: TakeOver, recs: Records, pending: set<ChildName>,
                   taken: set<ChildName>, wonNames: seq<ChildName>, n: ChildName)
    requires Walked(env, p, recs, pending, taken, wonNames)
    requires n in pending && RecordStep(env, p, n, recs[n]) != Fail
    ensures n in recs && n !in taken
    ensures RecordStep(env, p, n, recs[n]) == Take ==>
              Walked(env, p, recs, pending - {n}, taken + {n}, wonNames + [n])
    ensures RecordStep(env, p, n, recs[n]) == Skip ==>
              Walked(env, p, recs, pending - {n}, taken, wonNames)
  {
    if RecordStep(env, p, n, recs[n]) == Take {
      assert n in TakeSet(env, p, recs);
    } else {
      assert n !in TakeSet(env, p, recs);
    }
  }

  /** A walk that stepped every record took over exactly the take set. */
  lemma WalkedAll(env: Environment, p: TakeOver, recs: Records, taken: set<ChildName>, wonNames: seq<ChildName>)
    requires Walked(env, p, recs, {}, taken, wonNames)
    ensures taken == TakeSet(env, p, recs)
    ensures forall n :: n in recs ==> RecordStep(env, p, n, recs[n]) != Fail
  {
  }

  /**
   * The work on one record: the owner test, the per-record elector when the
   * listener has one, then the `wonOwnership` hook. `notified` tells whether
   * the hook was called (it may have thrown, making the step a failure).
   */
  method StepRecord(p: TakeOver, env: Environment, n: ChildName, owner: Option<Address>)
    returns (step: Step, notified: bool)
    ensures step == RecordStep(env, p, n, owner)
    ensures notified <==> owner == Some(p.lost) &&
                          (p.useLocalElector ==> env.localElect(p.listener, p.view, n) == Some(p.local))
    ensures step == Take ==> notified
  {
    notified := false;
    if owner.Some? && owner.value == p.lost {
      var elected := true;
      if p.useLocalElector {
        var e := env.localElect(p.listener, p.view, n);
        if e.None? {
          return Fail, false;
        }
        elected := e.value == p.local;
      }
      if !elected {
        return Skip, false;
      }
      notified := true;
      if env.wonOwnershipThrows(p.listener, n) {
        return Fail, true;
      }
      return Take, true;
    }
    step := Skip;
  }

  /**
   * The record walk of the second transaction: each record under the
   * listener's base FQN is stepped through `RecordStep` until one fails.
   * `out` are the records as the walk left them (those taken now owned by
   * the local member), `calls` the `wonOwnership` calls made, in order.
   */
  method WalkRecords(env: Environment, p: TakeOver, recs: Records)
    returns (ok: bool, out: Records, calls: seq<Callback>, ghost taken: set<ChildName>, ghost wonNames: seq<ChildName>)
    ensures ok <==> forall n :: n in recs ==> RecordStep(env, p, n, recs[n]) != Fail
    ensures taken <= TakeSet(env, p, recs)
    ensures out == TakenOver(recs, taken, p.local)
    ensures ok ==> taken == TakeSet(env, p, recs)
    ensures calls == WonCalls(p.listener, wonNames)
    ensures ok ==> |wonNames| == |taken| && forall n :: n in wonNames <==> n in taken
  {
    out := recs;
    calls := [];
    assert TakenOver(recs, {}, p.local) == recs;
    taken := {};
    wonNames := [];
    var pending := recs.Keys;
    WalkedStart(env, p, recs);
    while pending != {}
      invariant Walked(env, p, recs, pending, taken, wonNames)
      invariant out == TakenOver(recs, taken, p.local)
      invariant calls == WonCalls(p.listener, wonNames)
      decreases pending
    {
      var n :| n in pending;
      var step, notified := StepRecord(p, env, n, recs[n]);
      if notified {
        WonCallsSnoc(p.listener, wonNames, n);
        calls := calls + [WonOwnership(p.listener, n)];
      }
      if step == Fail {
        return false, out, calls, taken, if notified then wonNames + [n] else wonNames;
      }
      WalkedStep(env, p, recs, pending, taken, wonNames, n);
      if step == Take {
        TakeOneMore(recs, taken, n, p.local);
        out := out[n := Some(p.local)];
        taken := taken + {n};
        wonNames := wonNames + [n];
      }
      pending := pending - {n};
    }
    WalkedAll(env, p, recs, taken, wonNames);
    ok := true;
  }

  /**
   * The calls a view change made: each to a registered listener that either
   * brings its own elector or for which the local member won the cluster-wide
   * election, and every fail-over hook for a lost member.
   */
  ghost predicate ViewChangeCalls(cs: seq<Callback>, listeners: seq<FailOverListener>, lost: seq<Address>, electedLocal: bool)
  {
    forall i :: 0 <= i < |cs| ==>
      && cs[i].listener in listeners
      && (cs[i].listener.hasLocalElector || electedLocal)
      && (cs[i].FailOverClusterMember? ==> cs[i].lost in lost)
  }

  /** Appending the calls of one more takeover pass keeps the view change's calls well formed. */
  lemma ViewChangeCallsAppend(start: seq<Callback>, mid: seq<Callback>, end: seq<Callback>,
                              listeners: seq<FailOverListener>, lost: seq<Address>, electedLocal: bool,
                              l: FailOverListener, m: Address)
    requires |start| <= |mid| <= |end| && mid[..|start|] == start && end[..|mid|] == mid
    requires ViewChangeCalls(mid[|start|..], listeners, lost, electedLocal)
    requires CallsFor(end[|mid|..], l, m)
    requires l in listeners && m in lost && (l.hasLocalElector || electedLocal)
    ensures end[..|start|] == start
    ensures ViewChangeCalls(end[|start|..], listeners, lost, electedLocal)
  {
    var cs := end[|start|..];
    forall i | 0 <= i < |cs|
      ensures cs[i].listener in listeners && (cs[i].listener.hasLocalElector || electedLocal)
      ensures cs[i].FailOverClusterMember? ==> cs[i].lost in lost
    {
      if |start| + i < |mid| {
        assert cs[i] == mid[|start|..][i];
      } else {
        assert cs[i] == end[|mid|..][|start| + i - |mid|];
      }
    }
  }

  /** The base FQNs a view change may take over: those of listeners with their own elector, or all when elected. */
  ghost function TakeOverBases(listeners: seq<FailOverListener>, electedLocal: bool): set<Fqn>
  {
    set l | l in listeners && (l.hasLocalElector || electedLocal) :: l.baseFqn
  }

  /** Outside `bases`, `after` holds the records of `before`. */
  ghost predicate UntouchedOutside(before: Store, after: Store, bases: set<Fqn>)
  {
    forall f :: f in before && f !in bases ==> f in after && after[f] == before[f]
  }

  lemma UntouchedOutsideTrans(a: Store, b: Store, c: Store, bases: set<Fqn>)
    requires UntouchedOutside(a, b, bases) && UntouchedOutside(b, c, bases)
    ensures UntouchedOutside(a, c, bases)
  {
  }

  /** The calls of two consecutive stretches of a view change, for their lost members together. */
  lemma ViewChangeCallsConcat(start: seq<Callback>, mid: seq<Callback>, end: seq<Callback>,
                              listeners: seq<FailOverListener>, lost1: seq<Address>, lost2: seq<Address>, electedLocal: bool)
    requires |start| <= |mid| <= |end| && mid[..|start|] == start && end[..|mid|] == mid
    requires ViewChangeCalls(mid[|start|..], listeners, lost1, electedLocal)
    requires ViewChangeCalls(end[|mid|..], listeners, lost2, electedLocal)
    ensures end[..|start|] == start
    ensures ViewChangeCalls(end[|start|..], listeners, lost1 + lost2, electedLocal)
  {
    var cs := end[|start|..];
    forall i | 0 <= i < |cs|
      ensures cs[i].listener in listeners && (cs[i].listener.hasLocalElector || electedLocal)
      ensures cs[i].FailOverClusterMember? ==> cs[i].lost in lost1 + lost2
    {
      if |start| + i < |mid| {
        assert cs[i] == mid[|start|..][i];
      } else {
        assert cs[i] == end[|mid|..][|start| + i - |mid|];
      }
    }
  }

  /** When no member was lost, the view change moved no record. */
  lemma NothingLostNothingMoved(before: Store, after: Store, local: Address)
    requires StoreMoved(before, after, [], local)
    ensures after == before
  {
    forall f | f in before
      ensures after[f] == before[f]
    {
      assert RecordsMoved(before[f], after[f], [], local);
    }
  }

  // --------------------------------------------------- passes of a view change

  /**
   * The pass the listener loop runs for `l` and a lost member: always for a
   * listener with its own per-record elector, otherwise only when the
   * cluster-wide elector picked the local member.
   */
  function PassFor(l: FailOverListener, member: Address, local: Address, view: seq<Address>, electedLocal: bool): Option<TakeOver>
  {
    if l.hasLocalElector || electedLocal then Some(TakeOver(l, member, local, l.hasLocalElector, view)) else None
  }

  /** The passes the listener loop runs for one lost member, in registry order. */
  function MemberPasses(ls: seq<FailOverListener>, member: Address, local: Address, view: seq<Address>, electedLocal: bool): (ps: seq<TakeOver>)
    ensures |ps| <= |ls|
    ensures forall p :: p in ps ==>
              && p.listener in ls && p.lost == member && p.local == local && p.view == view
              && p.useLocalElector == p.listener.hasLocalElector && (p.listener.hasLocalElector || electedLocal)
    ensures forall l :: l in ls && (l.hasLocalElector || electedLocal) ==>
              TakeOver(l, member, local, l.hasLocalElector, view) in ps
  {
    if ls == [] then []
    else
      var prefix, last := ls[..|ls| - 1], ls[|ls| - 1];
      assert ls == prefix + [last];
      MemberPasses(prefix, member, local, view, electedLocal) +
      (match PassFor(last, member, local, view, electedLocal) case Some(p) => [p] case None => [])
  }

  lemma MemberPassesStep(ls: seq<FailOverListener>, j: nat, member: Address, local: Address, view: seq<Address>, electedLocal: bool)
    requires j < |ls|
    ensures MemberPasses(ls[..j + 1], member, local, view, electedLocal) ==
            MemberPasses(ls[..j], member, local, view, electedLocal) +
            (match PassFor(ls[j], member, local, view, electedLocal) case Some(p) => [p] case None => [])
  {
    assert ls[..j + 1][..j] == ls[..j];
  }

  /** The position of the first listener without its own elector, or the registry's size. */
  function FirstGeneric(ls: seq<FailOverListener>): (k: nat)
    ensures k <= |ls|
    ensures forall i :: 0 <= i < k ==> ls[i].hasLocalElector
    ensures k < |ls| ==> !ls[k].hasLocalElector
  {
    if ls == [] || !ls[0].hasLocalElector then 0 else 1 + FirstGeneric(ls[1..])
  }

  /** A listener with its own elector before the first generic one moves that bound on. */
  lemma FirstGenericStep(ls: seq<FailOverListener>, j: nat)
    requires j < |ls| && j <= FirstGeneric(ls) && ls[j].hasLocalElector
    ensures j + 1 <= FirstGeneric(ls)
  {
  }

  /**
   * How far the listener loop gets: to the end, unless the cluster-wide
   * elector throws, which ends the thread at the first listener without its
   * own elector.
   */
  function Reached(ls: seq<FailOverListener>, elected: Option<Address>): (k: nat)
    ensures k <= |ls|
    ensures k == |ls| <==> elected.Some? || forall l :: l in ls ==> l.hasLocalElector
    ensures forall i :: 0 <= i < k ==> elected.Some? || ls[i].hasLocalElector
  {
    if elected.Some? then |ls| else FirstGeneric(ls)
  }

  /** The passes a view change runs: for each lost member in turn, its listener loop's passes. */
  function ViewPasses(lost: seq<Address>, ls: seq<FailOverListener>, local: Address, view: seq<Address>, electedLocal: bool): (ps: seq<TakeOver>)
    ensures forall p :: p in ps ==> p.lost in lost && p.listener in ls && p.local == local
    ensures forall m, l :: m in lost && l in ls && (l.hasLocalElector || electedLocal) ==>
              TakeOver(l, m, local, l.hasLocalElector, view) in ps
  {
    if lost == [] then []
    else
      var prefix, last := lost[..|lost| - 1], lost[|lost| - 1];
      assert lost == prefix + [last];
      ViewPasses(prefix, ls, local, view, electedLocal) + MemberPasses(ls, last, local, view, electedLocal)
  }

  lemma ViewPassesSnoc(lost: seq<Address>, m: Address, ls: seq<FailOverListener>, local: Address, view: seq<Address>, electedLocal: bool)
    ensures ViewPasses(lost + [m], ls, local, view, electedLocal) ==
            ViewPasses(lost, ls, local, view, electedLocal) + MemberPasses(ls, m, local, view, electedLocal)
  {
    assert (lost + [m])[..|lost|] == lost;
  }

  /** One pass's outcome on its base FQN, measured from the store it started from. */
  ghost predicate PassDone(env: Environment, p: TakeOver, ok: bool, hasTx: bool, before: Store, after: Store)
  {
    var base := p.listener.baseFqn;
    var recs := RecordsAt(before, base);
    && ok == TakeOverSucceeds(env, p, recs)
    && (base in before ==>
          && base in after
          && (ok ==> after[base] == TakenOver(recs, TakeSet(env, p, recs), p.local))
          && (!ok && hasTx ==> after[base] == before[base]))
  }

  /** A pass's calls: the fail-over hook unless the backup fetch failed; on success `wonOwnership` for every record taken. */
  ghost predicate PassCalled(env: Environment, p: TakeOver, ok: bool, before: Store, cs: seq<Callback>)
  {
    && (!GravitationFails(env, p) ==> FailOverClusterMember(p.listener, p.lost) in cs)
    && (ok ==> forall n :: n in TakeSet(env, p, RecordsAt(before, p.listener.baseFqn)) ==> WonOwnership(p.listener, n) in cs)
  }

  lemma PassCalledIntro(env: Environment, p: TakeOver, ok: bool, before: Store, seg: seq<Callback>)
    requires !GravitationFails(env, p) ==> |seg| > 0 && seg[0] == FailOverClusterMember(p.listener, p.lost)
    requires ok ==> !GravitationFails(env, p) && WonExactly(seg[1..], p.listener, TakeSet(env, p, RecordsAt(before, p.listener.baseFqn)))
    ensures PassCalled(env, p, ok, before, seg)
  {
    if ok {
      forall n | n in TakeSet(env, p, RecordsAt(before, p.listener.baseFqn))
        ensures WonOwnership(p.listener, n) in seg
      {
        var k :| 0 <= k < |seg[1..]| && seg[1..][k] == WonOwnership(p.listener, n);
        assert seg[k + 1] == WonOwnership(p.listener, n);
      }
    }
  }

  /** Every pass of `passes` done and its calls made, all measured from `before`. */
  ghost predicate RunsDone(env: Environment, passes: seq<TakeOver>, oks: seq<bool>, hasTx: bool,
                           before: Store, after: Store, cs: seq<Callback>)
  {
    && |oks| == |passes|
    && forall i :: 0 <= i < |passes| ==>
         PassDone(env, passes[i], oks[i], hasTx, before, after) && PassCalled(env, passes[i], oks[i], before, cs)
  }

  /**
   * One more pass, on a base FQN no earlier pass touched and which nothing
   * touched before it, keeps the earlier passes' outcomes and adds its own.
   */
  lemma RunsDoneStep(env: Environment, passes: seq<TakeOver>, oks: seq<bool>, hasTx: bool,
                     before: Store, mid: Store, after: Store, cs: seq<Callback>, seg: seq<Callback>,
                     p: TakeOver, ok: bool)
    requires RunsDone(env, passes, oks, hasTx, before, mid, cs)
    requires forall q :: q in passes ==> q.listener.baseFqn != p.listener.baseFqn
    requires before.Keys == mid.Keys
    requires p.listener.baseFqn in before ==> mid[p.listener.baseFqn] == before[p.listener.baseFqn]
    requires forall f :: f in mid && f != p.listener.baseFqn ==> f in after && after[f] == mid[f]
    requires PassDone(env, p, ok, hasTx, mid, after)
    requires PassCalled(env, p, ok, mid, seg)
    ensures RunsDone(env, passes + [p], oks + [ok], hasTx, before, after, cs + seg)
  {
    var base := p.listener.baseFqn;
    assert RecordsAt(mid, base) == RecordsAt(before, base);
    var ps, os := passes + [p], oks + [ok];
    forall i | 0 <= i < |ps|
      ensures PassDone(env, ps[i], os[i], hasTx, before, after) && PassCalled(env, ps[i], os[i], before, cs + seg)
    {
      if i < |passes| {
        assert ps[i] == passes[i] && os[i] == oks[i];
        assert PassDone(env, passes[i], oks[i], hasTx, before, mid);
        assert passes[i] in passes;
      }
    }
  }

  /** The fail-over hook was called for every pass whose backup fetch did not fail. */
  ghost predicate HooksCalled(env: Environment, passes: seq<TakeOver>, cs: seq<Callback>)
  {
    forall i :: 0 <= i < |passes| && !GravitationFails(env, passes[i]) ==>
      FailOverClusterMember(passes[i].listener, passes[i].lost) in cs
  }

  lemma RunsDoneHooks(env: Environment, passes: seq<TakeOver>, oks: seq<bool>, hasTx: bool,
                      before: Store, after: Store, cs: seq<Callback>)
    requires RunsDone(env, passes, oks, hasTx, before, after, cs)
    ensures HooksCalled(env, passes, cs)
  {
    forall i | 0 <= i < |passes| && !GravitationFails(env, passes[i])
      ensures FailOverClusterMember(passes[i].listener, passes[i].lost) in cs
    {
      assert PassCalled(env, passes[i], oks[i], before, cs);
    }
  }

  lemma HooksCalledConcat(env: Environment, ps1: seq<TakeOver>, ps2: seq<TakeOver>, cs1: seq<Callback>, cs2: seq<Callback>)
    requires HooksCalled(env, ps1, cs1) && HooksCalled(env, ps2, cs2)
    ensures HooksCalled(env, ps1 + ps2, cs1 + cs2)
  {
    var ps := ps1 + ps2;
    forall i | 0 <= i < |ps| && !GravitationFails(env, ps[i])
      ensures FailOverClusterMember(ps[i].listener, ps[i].lost) in cs1 + cs2
    {
      if i < |ps1| {
        assert ps[i] == ps1[i];
      } else {
        assert ps[i] == ps2[i - |ps1|];
      }
    }
  }

  /** Every pass's outcome is the one it has on the records the thread started from. */
  ghost predicate OutcomesFrom(env: Environment, passes: seq<TakeOver>, oks: seq<bool>, store0: Store)
  {
    && |oks| == |passes|
    && forall k :: 0 <= k < |passes| ==>
         oks[k] == TakeOverSucceeds(env, passes[k], RecordsAt(store0, passes[k].listener.baseFqn))
  }

  /**
   * With outcomes pinned to the starting store, every pass succeeded exactly
   * when every pass succeeds on the records it started from.
   */
  lemma AllOkFromStart(env: Environment, passes: seq<TakeOver>, oks: seq<bool>, store0: Store)
    requires OutcomesFrom(env, passes, oks, store0)
    ensures AllOk(oks) <==>
            forall p :: p in passes ==> TakeOverSucceeds(env, p, RecordsAt(store0, p.listener.baseFqn))
  {
    if AllOk(oks) {
      forall p | p in passes
        ensures TakeOverSucceeds(env, p, RecordsAt(store0, p.listener.baseFqn))
      {
        var k :| 0 <= k < |passes| && passes[k] == p;
        assert oks[k];
      }
    }
  }

  /**
   * A pass only looks at which records its lost member owns: on two record
   * groups where the same records are owned by that member it has the same
   * outcome and takes the same records.
   */
  lemma SameOwnedSameOutcome(env: Environment, p: TakeOver, r1: Records, r2: Records)
    requires r1.Keys == r2.Keys
    requires forall n :: n in r1 ==> (r1[n] == Some(p.lost) <==> r2[n] == Some(p.lost))
    ensures TakeOverSucceeds(env, p, r1) == TakeOverSucceeds(env, p, r2)
    ensures TakeSet(env, p, r1) == TakeSet(env, p, r2)
  {
    forall n | n in r1
      ensures RecordStep(env, p, n, r1[n]) == RecordStep(env, p, n, r2[n])
    {
    }
  }

  /** Moves for other lost members, to a member that is not `m`, leave `m`'s records as they were. */
  lemma MovedKeepsOwned(store0: Store, store: Store, lost: seq<Address>, local: Address, m: Address, base: Fqn)
    requires StoreMoved(store0, store, lost, local)
    requires m !in lost && m != local
    ensures RecordsAt(store0, base).Keys == RecordsAt(store, base).Keys
    ensures forall n :: n in RecordsAt(store0, base) ==>
              (RecordsAt(store0, base)[n] == Some(m) <==> RecordsAt(store, base)[n] == Some(m))
  {
    if base in store0 {
      assert RecordsMoved(store0[base], store[base], lost, local);
    }
  }

  /**
   * The passes for a lost member not yet taken over, which started from a
   * store moved only for other lost members, have the outcomes they would
   * have had on the thread's starting store.
   */
  lemma OutcomesFromStep(env: Environment, store0: Store, before: Store, after: Store,
                         lost: seq<Address>, local: Address, passes: seq<TakeOver>, oks: seq<bool>,
                         member: Address, mPasses: seq<TakeOver>, mOks: seq<bool>, hasTx: bool, cs: seq<Callback>)
    requires OutcomesFrom(env, passes, oks, store0)
    requires StoreMoved(store0, before, lost, local)
    requires member !in lost && member != local
    requires RunsDone(env, mPasses, mOks, hasTx, before, after, cs)
    requires forall p :: p in mPasses ==> p.lost == member
    ensures OutcomesFrom(env, passes + mPasses, oks + mOks, store0)
  {
    var ps, os := passes + mPasses, oks + mOks;
    forall k | 0 <= k < |ps|
      ensures os[k] == TakeOverSucceeds(env, ps[k], RecordsAt(store0, ps[k].listener.baseFqn))
    {
      if k < |passes| {
        assert ps[k] == passes[k] && os[k] == oks[k];
      } else {
        var i := k - |passes|;
        var p := mPasses[i];
        assert ps[k] == p && os[k] == mOks[i];
        assert p in mPasses;
        assert PassDone(env, p, mOks[i], hasTx, before, after);
        MovedKeepsOwned(store0, before, lost, local, member, p.listener.baseFqn);
        SameOwnedSameOutcome(env, p, RecordsAt(store0, p.listener.baseFqn), RecordsAt(before, p.listener.baseFqn));
      }
    }
  }

  /** The calls after `start` in a log that grew from `mid` are those after `start` in `mid`, then the new ones. */
  lemma SliceGrows(start: seq<Callback>, mid: seq<Callback>, end: seq<Callback>)
    requires |start| <= |mid| <= |end| && mid[..|start|] == start && end[..|mid|] == mid
    ensures end[|start|..] == mid[|start|..] + end[|mid|..]
  {
  }

  predicate AllOk(oks: seq<bool>)
  {
    forall i :: 0 <= i < |oks| ==> oks[i]
  }

  /**
   * No record under the base FQN of a listener without its own elector is
   * still owned by a member of `lost`.
   */
  ghost predicate NoLostOwner(store: Store, ls: seq<FailOverListener>, lost: seq<Address>)
  {
    forall k, n :: 0 <= k < |ls| && !ls[k].hasLocalElector && ls[k].baseFqn in store && n in store[ls[k].baseFqn] ==>
      store[ls[k].baseFqn][n].None? || store[ls[k].baseFqn][n].value !in lost
  }

  /**
   * When the local member was elected and every pass for a lost member
   * succeeded, no record under a listener without its own elector is owned
   * by that member any more.
   */
  lemma {:induction false} MemberNoLostOwner(env: Environment, ls: seq<FailOverListener>, passes: seq<TakeOver>, oks: seq<bool>,
                           hasTx: bool, before: Store, after: Store, cs: seq<Callback>,
                           member: Address, local: Address, view: seq<Address>)
    requires RunsDone(env, passes, oks, hasTx, before, after, cs)
    requires passes == MemberPasses(ls, member, local, view, true)
    requires AllOk(oks) && member != local
    requires before.Keys == after.Keys
    ensures NoLostOwner(after, ls, [member])
  {
    forall k, n | 0 <= k < |ls| && !ls[k].hasLocalElector && ls[k].baseFqn in after && n in after[ls[k].baseFqn]
      ensures after[ls[k].baseFqn][n].None? || after[ls[k].baseFqn][n].value !in [member]
    {
      var p := TakeOver(ls[k], member, local, false, view);
      assert ls[k] in ls;
      assert p in passes;
      var i :| 0 <= i < |passes| && passes[i] == p;
      assert PassDone(env, p, oks[i], hasTx, before, after);
      GenericPassTakesAllLost(env, p, RecordsAt(before, ls[k].baseFqn));
    }
  }

  /** Clearing one more lost member, by moves only to a member that is not lost, clears them all. */
  lemma NoLostOwnerStep(before: Store, after: Store, ls: seq<FailOverListener>, lost: seq<Address>, member: Address,
                         local: Address, oks: seq<bool>, mOks: seq<bool>, guarded: bool)
    requires guarded && AllOk(oks) ==> NoLostOwner(before, ls, lost)
    requires guarded && AllOk(mOks) ==> NoLostOwner(after, ls, [member])
    requires StoreMoved(before, after, [member], local)
    requires guarded ==> local !in lost
    ensures guarded && AllOk(oks + mOks) ==> NoLostOwner(after, ls, lost + [member])
  {
    if !(guarded && AllOk(oks + mOks)) {
      return;
    }
    assert AllOk(oks) && AllOk(mOks) by {
      forall k | 0 <= k < |oks| ensures oks[k] { assert (oks + mOks)[k] == oks[k]; }
      forall k | 0 <= k < |mOks| ensures mOks[k] { assert (oks + mOks)[|oks| + k] == mOks[k]; }
    }
    forall k, n | 0 <= k < |ls| && !ls[k].hasLocalElector && ls[k].baseFqn in after && n in after[ls[k].baseFqn]
      ensures after[ls[k].baseFqn][n].None? || after[ls[k].baseFqn][n].value !in lost + [member]
    {
      var f := ls[k].baseFqn;
      assert RecordsMoved(before[f], after[f], [member], local);
    }
  }

  /**
   * What the takeover of one lost member has done after the listeners
   * `ls[..j]`: the passes it ran with their outcomes and hook calls (the
   * calls after `cs0`), how the store moved from `store0`, and that the
   * records under the listeners still ahead are as they were.
   */
  ghost predicate MemberLoop(env: Environment, ls: seq<FailOverListener>, j: nat, member: Address, local: Address,
                             view: seq<Address>, electedLocal: bool, hasTx: bool,
                             store0: Store, store: Store, cs0: seq<Callback>, cs: seq<Callback>,
                             passes: seq<TakeOver>, oks: seq<bool>)
  {
    && j <= |ls|
    && |cs0| <= |cs| && cs[..|cs0|] == cs0
    && StoreMoved(store0, store, [member], local)
    && UntouchedOutside(store0, store, TakeOverBases(ls, electedLocal))
    && ViewChangeCalls(cs[|cs0|..], ls, [member], electedLocal)
    && passes == MemberPasses(ls[..j], member, local, view, electedLocal)
    && RunsDone(env, passes, oks, hasTx, store0, store, cs[|cs0|..])
    && forall k :: j <= k < |ls| && ls[k].baseFqn in store0 ==> store[ls[k].baseFqn] == store0[ls[k].baseFqn]
  }

  /** Nothing is done before the first listener. */
  lemma MemberLoopStart(env: Environment, ls: seq<FailOverListener>, member: Address, local: Address,
                        view: seq<Address>, electedLocal: bool, hasTx: bool, store: Store, cs: seq<Callback>)
    ensures MemberLoop(env, ls, 0, member, local, view, electedLocal, hasTx, store, store, cs, cs, [], [])
  {
    StoreMovedRefl(store, [member], local);
    assert cs[|cs|..] == [];
    assert ls[..0] == [];
  }

  /** A listener that gets no pass changes nothing. */
  lemma MemberLoopSkip(env: Environment, ls: seq<FailOverListener>, j: nat, member: Address, local: Address,
                       view: seq<Address>, electedLocal: bool, hasTx: bool,
                       store0: Store, store: Store, cs0: seq<Callback>, cs: seq<Callback>,
                       passes: seq<TakeOver>, oks: seq<bool>)
    requires MemberLoop(env, ls, j, member, local, view, electedLocal, hasTx, store0, store, cs0, cs, passes, oks)
    requires j < |ls| && !ls[j].hasLocalElector && !electedLocal
    ensures MemberLoop(env, ls, j + 1, member, local, view, electedLocal, hasTx, store0, store, cs0, cs, passes, oks)
  {
    MemberPassesStep(ls, j, member, local, view, electedLocal);
  }

  /** A pass for the listener `ls[j]`, done as `PerformTakeOver` promises, extends the member's takeover. */
  lemma MemberLoopStep(env: Environment, ls: seq<FailOverListener>, j: nat, member: Address, local: Address,
                       view: seq<Address>, electedLocal: bool, hasTx: bool,
                       store0: Store, before: Store, after: Store, cs0: seq<Callback>, mid: seq<Callback>, cs: seq<Callback>,
                       passes: seq<TakeOver>, oks: seq<bool>, p: TakeOver, ok: bool)
    requires UniqueBaseFqns(ls)
    requires MemberLoop(env, ls, j, member, local, view, electedLocal, hasTx, store0, before, cs0, mid, passes, oks)
    requires j < |ls| && (ls[j].hasLocalElector || electedLocal)
    requires p == TakeOver(ls[j], member, local, ls[j].hasLocalElector, view)
    requires StoreMoved(before, after, [p.lost], p.local)
    requires forall f :: f in before && f != p.listener.baseFqn ==> after[f] == before[f]
    requires |cs| >= |mid| && cs[..|mid|] == mid
    requires CallsFor(cs[|mid|..], p.listener, p.lost)
    requires PassDone(env, p, ok, hasTx, before, after)
    requires PassCalled(env, p, ok, before, cs[|mid|..])
    ensures MemberLoop(env, ls, j + 1, member, local, view, electedLocal, hasTx, store0, after, cs0, cs,
                       passes + [p], oks + [ok])
  {
    var bases := TakeOverBases(ls, electedLocal);
    MemberPassesStep(ls, j, member, local, view, electedLocal);
    assert ls[j] in ls;
    assert ls[j].baseFqn in bases;
    forall q | q in passes
      ensures q.listener.baseFqn != ls[j].baseFqn
    {
      EarlierBaseDiffers(ls, j, q.listener);
    }
    StoreMovedTrans(store0, before, after, [member], [member], local);
    StoreMovedWiden(store0, after, [member] + [member], [member], local);
    UntouchedOutsideTrans(store0, before, after, bases);
    ViewChangeCallsAppend(cs0, mid, cs, ls, [member], electedLocal, ls[j], member);
    SliceGrows(cs0, mid, cs);
    RunsDoneStep(env, passes, oks, hasTx, store0, before, after, mid[|cs0|..], cs[|mid|..], p, ok);
    forall k | j + 1 <= k < |ls| && ls[k].baseFqn in store0
      ensures after[ls[k].baseFqn] == store0[ls[k].baseFqn]
    {
      assert ls[k].baseFqn != ls[j].baseFqn;
    }
  }

  /**
   * What the takeover of one lost member has done: the passes over the
   * listeners it reached (`reached`) with their outcomes and hook calls,
   * how the store moved, and, when the local member was elected and every
   * pass succeeded, that no record under a listener without its own elector
   * is owned by the lost member any more.
   */
  ghost predicate MemberProgress(env: Environment, ls: seq<FailOverListener>, reached: seq<FailOverListener>,
                                 member: Address, local: Address, view: seq<Address>, electedLocal: bool, hasTx: bool,
                                 store0: Store, store: Store, cs0: seq<Callback>, cs: seq<Callback>,
                                 passes: seq<TakeOver>, oks: seq<bool>)
  {
    && |cs0| <= |cs| && cs[..|cs0|] == cs0
    && passes == MemberPasses(reached, member, local, view, electedLocal)
    && RunsDone(env, passes, oks, hasTx, store0, store, cs[|cs0|..])
    && (electedLocal && member != local && AllOk(oks) ==> NoLostOwner(store, ls, [member]))
    && StoreMoved(store0, store, [member], local)
    && UntouchedOutside(store0, store, TakeOverBases(ls, electedLocal))
    && ViewChangeCalls(cs[|cs0|..], ls, [member], electedLocal)
  }

  /**
   * Where the loop over the listeners stops, at the end or at the first
   * listener without its own elector when the cluster-wide elector throws,
   * is how far it gets, and the member's takeover is done.
   */
  lemma MemberLoopDone(env: Environment, ls: seq<FailOverListener>, j: nat, elected: Option<Address>,
                       member: Address, local: Address, view: seq<Address>, electedLocal: bool, hasTx: bool,
                       store0: Store, store: Store, cs0: seq<Callback>, cs: seq<Callback>,
                       passes: seq<TakeOver>, oks: seq<bool>)
    requires MemberLoop(env, ls, j, member, local, view, electedLocal, hasTx, store0, store, cs0, cs, passes, oks)
    requires electedLocal == (elected == Some(local))
    requires elected.Some? || j <= FirstGeneric(ls)
    requires j == |ls| || (elected.None? && !ls[j].hasLocalElector)
    ensures Reached(ls, elected) == j
    ensures MemberProgress(env, ls, ls[..Reached(ls, elected)], member, local, view, electedLocal, hasTx,
                           store0, store, cs0, cs, passes, oks)
  {
    assert Reached(ls, elected) == j;
    if electedLocal && member != local && AllOk(oks) {
      assert ls[..j] == ls;
      MemberNoLostOwner(env, ls, passes, oks, hasTx, store0, store, cs[|cs0|..], member, local, view);
    }
  }

  /**
   * What the takeover thread has done once it is through the lost members
   * `lost`: the passes it ran; their outcomes, which, when the local member
   * is not lost and no member is lost twice, are those each pass has on the
   * starting store `store0`; the hooks they called (the calls after `cs0`);
   * how the store moved from `store0`; and, when the local member was
   * elected and every pass succeeded, that no lost member owns a record
   * under a listener without its own elector.
   */
  ghost predicate ViewProgress(env: Environment, ls: seq<FailOverListener>, reached: seq<FailOverListener>,
                               local: Address, view: seq<Address>, electedLocal: bool,
                               store0: Store, store: Store, cs0: seq<Callback>, cs: seq<Callback>,
                               lost: seq<Address>, passes: seq<TakeOver>, oks: seq<bool>)
  {
    && |cs0| <= |cs| && cs[..|cs0|] == cs0
    && passes == ViewPasses(lost, reached, local, view, electedLocal)
    && |oks| == |passes|
    && (local in view && NoDuplicates(lost) ==> OutcomesFrom(env, passes, oks, store0))
    && HooksCalled(env, passes, cs[|cs0|..])
    && (electedLocal && local in view && AllOk(oks) ==> NoLostOwner(store, ls, lost))
    && StoreMoved(store0, store, lost, local)
    && UntouchedOutside(store0, store, TakeOverBases(ls, electedLocal))
    && ViewChangeCalls(cs[|cs0|..], ls, lost, electedLocal)
  }

  /** Nothing is done before the first lost member. */
  lemma ViewProgressStart(env: Environment, ls: seq<FailOverListener>, reached: seq<FailOverListener>,
                          local: Address, view: seq<Address>, electedLocal: bool, store: Store, cs: seq<Callback>)
    ensures ViewProgress(env, ls, reached, local, view, electedLocal, store, store, cs, cs, [], [], [])
  {
    StoreMovedRefl(store, [], local);
    assert cs[|cs|..] == [];
  }

  /** The takeover of one more lost member extends what the thread has done. */
  lemma ViewProgressStep(env: Environment, ls: seq<FailOverListener>, reached: seq<FailOverListener>,
                         local: Address, view: seq<Address>, electedLocal: bool, hasTx: bool,
                         store0: Store, before: Store, after: Store, cs0: seq<Callback>, mid: seq<Callback>, cs: seq<Callback>,
                         lost: seq<Address>, passes: seq<TakeOver>, oks: seq<bool>,
                         member: Address, mPasses: seq<TakeOver>, mOks: seq<bool>)
    requires ViewProgress(env, ls, reached, local, view, electedLocal, store0, before, cs0, mid, lost, passes, oks)
    requires forall a :: a in lost ==> a !in view
    requires member !in view
    requires MemberProgress(env, ls, reached, member, local, view, electedLocal, hasTx, before, after, mid, cs, mPasses, mOks)
    ensures ViewProgress(env, ls, reached, local, view, electedLocal, store0, after, cs0, cs,
                         lost + [member], passes + mPasses, oks + mOks)
  {
    StoreMovedTrans(store0, before, after, lost, [member], local);
    UntouchedOutsideTrans(store0, before, after, TakeOverBases(ls, electedLocal));
    ViewChangeCallsConcat(cs0, mid, cs, ls, lost, [member], electedLocal);
    SliceGrows(cs0, mid, cs);
    RunsDoneHooks(env, mPasses, mOks, hasTx, before, after, cs[|mid|..]);
    HooksCalledConcat(env, passes, mPasses, mid[|cs0|..], cs[|mid|..]);
    ViewPassesSnoc(lost, member, reached, local, view, electedLocal);
    NoLostOwnerStep(before, after, ls, lost, member, local, oks, mOks, electedLocal && local in view);
    if local in view && NoDuplicates(lost + [member]) {
      NoDuplicatesSnoc(lost, member);
      OutcomesFromStep(env, store0, before, after, lost, local, passes, oks, member, mPasses, mOks, hasTx, cs[|mid|..]);
    }
  }

  /** A listener earlier in a registry with unique base FQNs has another base FQN. */
  lemma EarlierBaseDiffers(ls: seq<FailOverListener>, j: nat, x: FailOverListener)
    requires UniqueBaseFqns(ls) && j < |ls| && x in ls[..j]
    ensures x.baseFqn != ls[j].baseFqn
  {
    var k :| 0 <= k < j && ls[..j][k] == x;
    assert ls[k] == x;
  }

  // -------------------------------------------------------------- registry

  ghost predicate SortedByPriority(s: seq<FailOverListener>)
  {
    forall i, j :: 0 <= i < j < |s| ==> s[i].priority <= s[j].priority
  }

  ghost predicate UniqueBaseFqns(s: seq<FailOverListener>)
  {
    forall i, j :: 0 <= i < j < |s| ==> s[i].baseFqn != s[j].baseFqn
  }

  predicate HasBaseFqn(s: seq<FailOverListener>, f: Fqn)
  {
    exists i :: 0 <= i < |s| && s[i].baseFqn == f
  }

  /** Where a new listener goes: after every listener of lower or equal priority. */
  function InsertionIndex(s: seq<FailOverListener>, l: FailOverListener): (k: nat)
    ensures k <= |s|
    ensures forall i :: 0 <= i < k ==> s[i].priority <= l.priority
    ensures k < |s| ==> l.priority < s[k].priority
  {
    if s == [] || l.priority < s[0].priority then 0 else 1 + InsertionIndex(s[1..], l)
  }

  function InsertByPriority(s: seq<FailOverListener>, l: FailOverListener): (r: seq<FailOverListener>)
    ensures |r| == |s| + 1
    ensures multiset(r) == multiset(s) + multiset{l}
    ensures r[InsertionIndex(s, l)] == l
    ensures forall i :: 0 <= i < InsertionIndex(s, l) ==> r[i] == s[i]
    ensures forall i :: InsertionIndex(s, l) <= i < |s| ==> r[i + 1] == s[i]
  {
    var k := InsertionIndex(s, l);
    SpliceAt(s, k, l, s[..k] + [l] + s[k..]);
    s[..k] + [l] + s[k..]
  }

  /** Splicing `x` into `s` at position `k`, giving `r`, shifts the elements from `k` on up by one. */
  lemma SpliceAt<T>(s: seq<T>, k: nat, x: T, r: seq<T>)
    requires k <= |s| && r == s[..k] + [x] + s[k..]
    ensures |r| == |s| + 1
    ensures multiset(r) == multiset(s) + multiset{x}
    ensures r[k] == x
    ensures forall i :: 0 <= i < k ==> r[i] == s[i]
    ensures forall i :: k < i < |r| ==> r[i] == s[i - 1]
  {
    assert s == s[..k] + s[k..];
  }

  /**
   * Inserting a listener with a new base FQN keeps the registry ordered by
   * priority and free of duplicate base FQNs, and adds exactly that listener.
   */
  lemma InsertKeepsRegistry(s: seq<FailOverListener>, l: FailOverListener)
    requires SortedByPriority(s) && UniqueBaseFqns(s) && !HasBaseFqn(s, l.baseFqn)
    ensures SortedByPriority(InsertByPriority(s, l))
    ensures UniqueBaseFqns(InsertByPriority(s, l))
    ensures forall x :: x in InsertByPriority(s, l) <==> x in s || x == l
  {
    var k := InsertionIndex(s, l);
    var r := InsertByPriority(s, l);
    SpliceAt(s, k, l, r);
    SplicedInOrder(s, k, l, r);
    forall x | x in s
      ensures x in r
    {
      var i :| 0 <= i < |s| && s[i] == x;
      if i < k { assert r[i] == x; } else { assert r[i + 1] == x; }
    }
  }

  /**
   * A listener spliced in after the listeners of lower or equal priority and
   * before the higher ones, with a base FQN none of them has, keeps the
   * registry ordered and free of duplicate base FQNs.
   */
  lemma SplicedInOrder(s: seq<FailOverListener>, k: nat, l: FailOverListener, r: seq<FailOverListener>)
    requires SortedByPriority(s) && UniqueBaseFqns(s) && !HasBaseFqn(s, l.baseFqn)
    requires k <= |s| && r == s[..k] + [l] + s[k..]
    requires forall i :: 0 <= i < k ==> s[i].priority <= l.priority
    requires k < |s| ==> l.priority < s[k].priority
    ensures SortedByPriority(r) && UniqueBaseFqns(r)
  {
    SpliceAt(s, k, l, r);
    forall i, j | 0 <= i < j < |r|
      ensures r[i].priority <= r[j].priority && r[i].baseFqn != r[j].baseFqn
    {
      if j < k {
        assert r[i] == s[i] && r[j] == s[j];
      } else if j == k {
        assert r[i] == s[i];
      } else if i < k {
        assert r[i] == s[i] && r[j] == s[j - 1];
      } else if i == k {
        assert r[j] == s[j - 1];
        assert s[k].priority <= s[j - 1].priority;
      } else {
        assert r[i] == s[i - 1] && r[j] == s[j - 1];
      }
    }
  }

  /** The first position of `l` in `s`, if any. */
  function IndexOf(s: seq<FailOverListener>, l: FailOverListener): (r: Option<nat>)
    ensures r.None? <==> l !in s
    ensures r.Some? ==> r.value < |s| && s[r.value] == l
  {
    if s == [] then None
    else if s[0] == l then Some(0)
    else match IndexOf(s[1..], l)
      case None => None
      case Some(i) => Some(i + 1)
  }

  function WithoutListener(s: seq<FailOverListener>, l: FailOverListener): (r: seq<FailOverListener>)
    ensures l !in s ==> r == s
    ensures l in s ==> |r| == |s| - 1 && multiset(r) == multiset(s) - multiset{l}
  {
    match IndexOf(s, l)
    case None => s
    case Some(i) =>
      DropAt(s, i, s[..i] + s[i + 1..]);
      s[..i] + s[i + 1..]
  }

  /** Dropping position `k` of `s`, giving `r`, shifts the elements after it down by one. */
  lemma DropAt<T>(s: seq<T>, k: nat, r: seq<T>)
    requires k < |s| && r == s[..k] + s[k + 1..]
    ensures |r| == |s| - 1
    ensures multiset(r) == multiset(s) - multiset{s[k]}
    ensures forall i :: 0 <= i < k ==> r[i] == s[i]
    ensures forall i :: k <= i < |r| ==> r[i] == s[i + 1]
  {
    assert s == s[..k] + [s[k]] + s[k + 1..];
  }

  /**
   * Removing a listener keeps the registry ordered and free of duplicate
   * base FQNs, and removes exactly that listener.
   */
  lemma RemoveKeepsRegistry(s: seq<FailOverListener>, l: FailOverListener)
    requires SortedByPriority(s) && UniqueBaseFqns(s)
    ensures SortedByPriority(WithoutListener(s, l))
    ensures UniqueBaseFqns(WithoutListener(s, l))
    ensures forall x :: x in WithoutListener(s, l) <==> x in s && x != l
  {
    var r := WithoutListener(s, l);
    match IndexOf(s, l)
    case None =>
    case Some(k) =>
      DropAt(s, k, r);
      DroppedInOrder(s, k, r);
      forall x | x in s && x != l
        ensures x in r
      {
        var i :| 0 <= i < |s| && s[i] == x;
        if i < k { assert r[i] == x; } else { assert r[i - 1] == x; }
      }
  }

  /** Dropping one listener keeps the registry ordered and free of duplicate base FQNs. */
  lemma DroppedInOrder(s: seq<FailOverListener>, k: nat, r: seq<FailOverListener>)
    requires SortedByPriority(s) && UniqueBaseFqns(s)
    requires k < |s| && r == s[..k] + s[k + 1..]
    ensures SortedByPriority(r) && UniqueBaseFqns(r)
  {
    DropAt(s, k, r);
    forall i, j | 0 <= i < j < |r|
      ensures r[i].priority <= r[j].priority && r[i].baseFqn != r[j].baseFqn
    {
      var i', j' := if i < k then i else i + 1, if j < k then j else j + 1;
      assert r[i] == s[i'] && r[j] == s[j'];
    }
  }

  /** The parent of a FQN; the root is its own parent. */
  function Parent(f: Fqn): (r: Fqn)
    ensures f == [] ==> r == []
    ensures f != [] ==> f == r + [f[|f| - 1]]
  {
    if f == [] then f else f[..|f| - 1]
  }

  // ------------------------------------------------------------ controller

  class DefaultMobicentsCluster {
    /** The local member's address; null when the cache is local-only and has none. */
    const localAddress: Option<Address>
    const hasTxManager: bool
    /** The cluster-wide elector; `None` stands for an exception. */
    const elector: seq<Address> -> Option<Address>
    /** The view; null when the cache is local-only. */
    var currentView: Option<seq<Address>>
    var failOverListeners: seq<FailOverListener>
    var dataRemovalListeners: map<Fqn, DataRemovalListener>
    var cache: Store
    var callbacks: seq<Callback>

    /**
     * The fail-over listeners are kept in priority order, one per base FQN,
     * and each data-removal listener is filed under its own base FQN.
     */
    ghost predicate RegistryValid()
      reads this`failOverListeners, this`dataRemovalListeners
    {
      && SortedByPriority(failOverListeners)
      && UniqueBaseFqns(failOverListeners)
      && (forall f :: f in dataRemovalListeners ==> dataRemovalListeners[f].baseFqn == f)
    }

    /** A clustered cache, the one with a view, has a local address. */
    ghost predicate Valid()
      reads this`failOverListeners, this`dataRemovalListeners, this`currentView
    {
      RegistryValid() && (currentView.Some? ==> localAddress.Some?)
    }

    /**
     * A clustered cache starts from the channel's view and has a local
     * address; a local-only cache has no view.
     */
    constructor (clustered: bool, channelView: seq<Address>, localAddress: Option<Address>,
                 hasTxManager: bool, elector: seq<Address> -> Option<Address>, cache: Store)
      requires clustered ==> localAddress.Some?
      ensures Valid()
      ensures currentView == (if clustered then Some(channelView) else None)
      ensures this.localAddress == localAddress && this.hasTxManager == hasTxManager && this.elector == elector
      ensures failOverListeners == [] && dataRemovalListeners == map[]
      ensures this.cache == cache && callbacks == []
    {
      this.localAddress := localAddress;
      this.hasTxManager := hasTxManager;
      this.elector := elector;
      currentView := if clustered then Some(channelView) else None;
      failOverListeners := [];
      dataRemovalListeners := map[];
      this.cache := cache;
      callbacks := [];
    }

    /** The view; without one, the local member alone, or nobody without a local address. */
    function GetClusterMembers(): (members: seq<Address>)
      reads this`currentView
      ensures currentView.Some? ==> members == currentView.value
      ensures currentView.None? ==> members == (if localAddress.Some? then [localAddress.value] else [])
    {
      if currentView.Some? then currentView.value
      else if localAddress.None? then []
      else [localAddress.value]
    }

    /** Head: no local address, or the first member is the local one. */
    function IsHeadMember(): (head: bool)
      reads this`currentView
      ensures head <==> localAddress.None? ||
                        (|GetClusterMembers()| > 0 && GetClusterMembers()[0] == localAddress.value)
    {
      if localAddress.Some? then
        var members := GetClusterMembers();
        |members| > 0 && members[0] == localAddress.value
      else
        true
    }

    /** Single: no local address, or exactly one member. */
    function IsSingleMember(): (single: bool)
      reads this`currentView
      ensures single <==> localAddress.None? || |GetClusterMembers()| == 1
    {
      if localAddress.Some? then |GetClusterMembers()| == 1 else true
    }

    /**
     * The listener a removal of `fqn` notifies: the one registered for its
     * parent, and only when the removal came from another member.
     */
    function NodeRemovedListener(fqn: Fqn, originLocal: bool): (notified: Option<DataRemovalListener>)
      reads this`dataRemovalListeners, this`failOverListeners, this`currentView
      requires Valid()
      ensures notified.Some? <==> !originLocal && Parent(fqn) in dataRemovalListeners
      ensures notified.Some? ==> notified.value == dataRemovalListeners[Parent(fqn)]
      ensures notified.Some? ==> notified.value.baseFqn == Parent(fqn)
    {
      if !originLocal && Parent(fqn) in dataRemovalListeners then Some(dataRemovalListeners[Parent(fqn)]) else None
    }

    method AddFailOverListener(l: FailOverListener) returns (added: bool)
      requires Valid()
      modifies this`failOverListeners
      ensures Valid()
      ensures added <==> !HasBaseFqn(old(failOverListeners), l.baseFqn)
      ensures !added ==> failOverListeners == old(failOverListeners)
      ensures added ==> failOverListeners == InsertByPriority(old(failOverListeners), l)
      ensures forall x :: x in failOverListeners <==> x in old(failOverListeners) || (added && x == l)
    {
      for i := 0 to |failOverListeners|
        invariant forall j :: 0 <= j < i ==> failOverListeners[j].baseFqn != l.baseFqn
      {
        if failOverListeners[i].baseFqn == l.baseFqn {
          return false;
        }
      }
      InsertKeepsRegistry(failOverListeners, l);
      failOverListeners := InsertByPriority(failOverListeners, l);
      added := true;
    }

    method RemoveFailOverListener(l: FailOverListener) returns (removed: bool)
      requires Valid()
      modifies this`failOverListeners
      ensures Valid()
      ensures removed <==> l in old(failOverListeners)
      ensures failOverListeners == WithoutListener(old(failOverListeners), l)
      ensures forall x :: x in failOverListeners <==> x in old(failOverListeners) && x != l
    {
      RemoveKeepsRegistry(failOverListeners, l);
      removed := l in failOverListeners;
      failOverListeners := WithoutListener(failOverListeners, l);
    }

    /** `putIfAbsent` under the listener's base FQN: never replaces a registered listener. */
    method AddDataRemovalListener(l: DataRemovalListener) returns (added: bool)
      requires Valid()
      modifies this`dataRemovalListeners
      ensures Valid()
      ensures added <==> l.baseFqn !in old(dataRemovalListeners)
      ensures added ==> dataRemovalListeners == old(dataRemovalListeners)[l.baseFqn := l]
      ensures !added ==> dataRemovalListeners == old(dataRemovalListeners)
    {
      added := l.baseFqn !in dataRemovalListeners;
      if added {
        dataRemovalListeners := dataRemovalListeners[l.baseFqn := l];
      }
    }

    /** Removes whatever listener is registered under the listener's base FQN. */
    method RemoveDataRemovalListener(l: DataRemovalListener) returns (removed: bool)
      requires Valid()
      modifies this`dataRemovalListeners
      ensures Valid()
      ensures removed <==> l.baseFqn in old(dataRemovalListeners)
      ensures dataRemovalListeners == old(dataRemovalListeners) - {l.baseFqn}
    {
      removed := l.baseFqn in dataRemovalListeners;
      dataRemovalListeners := dataRemovalListeners - {l.baseFqn};
    }

    /**
     * One takeover pass for a listener and a lost member. The first
     * transaction forces the gravitation of the dead member's buddy backup;
     * when that fails, nothing else happens. Otherwise the second transaction
     * runs (`TakeOverTransaction`).
     */
    method PerformTakeOver(p: TakeOver, env: Environment) returns (ok: bool)
      modifies this`cache, this`callbacks
      ensures ok == TakeOverSucceeds(env, p, RecordsAt(old(cache), p.listener.baseFqn))
      ensures ok ==> cache == WithRecords(old(cache), p.listener.baseFqn,
                                TakenOver(RecordsAt(old(cache), p.listener.baseFqn),
                                          TakeSet(env, p, RecordsAt(old(cache), p.listener.baseFqn)), p.local))
      ensures !ok && hasTxManager ==> cache == old(cache)
      ensures StoreMoved(old(cache), cache, [p.lost], p.local)
      ensures forall f :: f in old(cache) && f != p.listener.baseFqn ==> cache[f] == old(cache)[f]
      ensures |callbacks| >= |old(callbacks)| && callbacks[..|old(callbacks)|] == old(callbacks)
      ensures CallsFor(callbacks[|old(callbacks)|..], p.listener, p.lost)
      ensures GravitationFails(env, p) ==> callbacks == old(callbacks)
      ensures !GravitationFails(env, p) ==>
                |callbacks| > |old(callbacks)| && callbacks[|old(callbacks)|] == FailOverClusterMember(p.listener, p.lost)
      ensures ok ==> WonExactly(callbacks[|old(callbacks)| + 1..], p.listener,
                                TakeSet(env, p, RecordsAt(old(cache), p.listener.baseFqn)))
      ensures PassDone(env, p, ok, hasTxManager, old(cache), cache)
      ensures PassCalled(env, p, ok, old(cache), callbacks[|old(callbacks)|..])
    {
      // first transaction: the buddy backup fetch; its rollback undoes nothing here
      if GravitationFails(env, p) {
        StoreMovedRefl(cache, [p.lost], p.local);
        PassCalledIntro(env, p, false, cache, []);
        return false;
      }
      ok := TakeOverTransaction(p, env);
    }

    /**
     * The second transaction of a takeover pass: it calls the fail-over hook
     * and walks the records under the listener's base FQN. On success every
     * record of the take set is owned by the local member; on failure the
     * created transaction is rolled back, and without a transaction manager
     * the records already taken stay taken.
     */
    method TakeOverTransaction(p: TakeOver, env: Environment) returns (ok: bool)
      requires !GravitationFails(env, p)
      modifies this`cache, this`callbacks
      ensures ok == TakeOverSucceeds(env, p, RecordsAt(old(cache), p.listener.baseFqn))
      ensures ok ==> cache == WithRecords(old(cache), p.listener.baseFqn,
                                TakenOver(RecordsAt(old(cache), p.listener.baseFqn),
                                          TakeSet(env, p, RecordsAt(old(cache), p.listener.baseFqn)), p.local))
      ensures !ok && hasTxManager ==> cache == old(cache)
      ensures StoreMoved(old(cache), cache, [p.lost], p.local)
      ensures forall f :: f in old(cache) && f != p.listener.baseFqn ==> cache[f] == old(cache)[f]
      ensures |callbacks| >= |old(callbacks)| && callbacks[..|old(callbacks)|] == old(callbacks)
      ensures CallsFor(callbacks[|old(callbacks)|..], p.listener, p.lost)
      ensures |callbacks| > |old(callbacks)| && callbacks[|old(callbacks)|] == FailOverClusterMember(p.listener, p.lost)
      ensures ok ==> WonExactly(callbacks[|old(callbacks)| + 1..], p.listener,
                                TakeSet(env, p, RecordsAt(old(cache), p.listener.baseFqn)))
      ensures PassDone(env, p, ok, hasTxManager, old(cache), cache)
      ensures PassCalled(env, p, ok, old(cache), callbacks[|old(callbacks)|..])
    {
      ghost var start := callbacks;
      var base := p.listener.baseFqn;
      callbacks := callbacks + [FailOverClusterMember(p.listener, p.lost)];
      if env.failOverClusterMemberThrows(p.listener, p.lost) {
        assert callbacks[|start|..] == [FailOverClusterMember(p.listener, p.lost)];
        StoreMovedRefl(cache, [p.lost], p.local);
        PassCalledIntro(env, p, false, old(cache), callbacks[|start|..]);
        return false;
      }
      var recs := RecordsAt(cache, base);
      var out, calls;
      ghost var taken, wonNames;
      ok, out, calls, taken, wonNames := WalkRecords(env, p, recs);
      callbacks := callbacks + calls;
      // a created transaction is rolled back on failure; otherwise the writes stay
      if ok || !hasTxManager {
        TakeSetOwnedByLost(env, p, recs);
        TakenOverMoves(cache, base, taken, p.lost, p.local);
        cache := WithRecords(cache, base, out);
      } else {
        StoreMovedRefl(cache, [p.lost], p.local);
      }
      HookThenWonCallsFor(start, callbacks, p.listener, p.lost, wonNames);
      if ok {
        WonCallsExactly(p.listener, wonNames, taken);
        assert callbacks[|start| + 1..] == WonCalls(p.listener, wonNames);
      }
      assert callbacks[|start|..][1..] == callbacks[|start| + 1..];
      PassCalledIntro(env, p, ok, old(cache), callbacks[|start|..]);
    }

    /**
     * One fail-over listener in a lost member's listener loop: a pass with
     * the listener's own per-record elector, or, without one, a pass for
     * all the member's records when the cluster-wide elector picks the local
     * member. `stopped` means that elector threw, which ends the thread.
     */
    method TakeOverListener(ls: seq<FailOverListener>, j: nat, member: Address, local: Address,
                            newView: seq<Address>, env: Environment, ghost electedLocal: bool,
                            ghost store0: Store, ghost cs0: seq<Callback>,
                            ghost passes: seq<TakeOver>, ghost oks: seq<bool>)
      returns (stopped: bool, ghost passes': seq<TakeOver>, ghost oks': seq<bool>)
      requires localAddress == Some(local) && RegistryValid() && ls == failOverListeners
      requires electedLocal == (elector(newView) == Some(local)) && j < |ls|
      requires MemberLoop(env, ls, j, member, local, newView, electedLocal, hasTxManager,
                          store0, cache, cs0, callbacks, passes, oks)
      modifies this`cache, this`callbacks
      ensures stopped <==> elector(newView).None? && !ls[j].hasLocalElector
      ensures stopped ==> MemberLoop(env, ls, j, member, local, newView, electedLocal, hasTxManager,
                                     store0, cache, cs0, callbacks, passes', oks')
      ensures !stopped ==> MemberLoop(env, ls, j + 1, member, local, newView, electedLocal, hasTxManager,
                                      store0, cache, cs0, callbacks, passes', oks')
    {
      var listener := ls[j];
      var pass: TakeOver;
      stopped, passes', oks' := false, passes, oks;
      if listener.hasLocalElector {
        pass := TakeOver(listener, member, local, true, newView);
      } else {
        var elected := elector(newView);
        if elected.None? {
          return true, passes, oks;
        }
        if elected.value != local {
          MemberLoopSkip(env, ls, j, member, local, newView, electedLocal, hasTxManager,
                         store0, cache, cs0, callbacks, passes, oks);
          return;
        }
        pass := TakeOver(listener, member, local, false, newView);
      }
      ghost var before := cache;
      ghost var mid := callbacks;
      var ok := PerformTakeOver(pass, env);
      MemberLoopStep(env, ls, j, member, local, newView, electedLocal, hasTxManager,
                     store0, before, cache, cs0, mid, callbacks, passes, oks, pass, ok);
      passes', oks' := passes + [pass], oks + [ok];
    }

    /**
     * The takeover passes for one lost member: every fail-over listener in
     * priority order, either with its own per-record elector or, when the
     * cluster-wide elector picks the local member, for all the member's
     * records. An exception from the cluster-wide elector ends the thread
     * (`completed` is false).
     */
    method TakeOverLostMember(member: Address, newView: seq<Address>, env: Environment)
      returns (completed: bool, ghost passes: seq<TakeOver>, ghost oks: seq<bool>)
      requires localAddress.Some? && RegistryValid()
      modifies this`cache, this`callbacks
      ensures completed <==> Reached(failOverListeners, elector(newView)) == |failOverListeners|
      ensures MemberProgress(env, failOverListeners, failOverListeners[..Reached(failOverListeners, elector(newView))],
                             member, localAddress.value, newView, elector(newView) == Some(localAddress.value),
                             hasTxManager, old(cache), cache, old(callbacks), callbacks, passes, oks)
    {
      var local := localAddress.value;
      var ls := failOverListeners;
      ghost var electedLocal := elector(newView) == Some(local);
      passes, oks := [], [];
      MemberLoopStart(env, ls, member, local, newView, electedLocal, hasTxManager, cache, callbacks);
      var j, stopped := 0, false;
      while j < |ls| && !stopped
        invariant j <= |ls|
        invariant elector(newView).Some? || j <= FirstGeneric(ls)
        invariant stopped ==> j < |ls| && elector(newView).None? && !ls[j].hasLocalElector
        decreases |ls| - j, if stopped then 0 else 1
        invariant MemberLoop(env, ls, j, member, local, newView, electedLocal, hasTxManager,
                             old(cache), cache, old(callbacks), callbacks, passes, oks)
      {
        stopped, passes, oks := TakeOverListener(ls, j, member, local, newView, env, electedLocal,
                                                 old(cache), old(callbacks), passes, oks);
        if !stopped {
          if elector(newView).None? {
            FirstGenericStep(ls, j);
          }
          j := j + 1;
        }
      }
      completed := !stopped;
      MemberLoopDone(env, ls, j, elector(newView), member, local, newView, electedLocal, hasTxManager,
                     old(cache), cache, old(callbacks), callbacks, passes, oks);
    }

    /**
     * One lost member in the takeover thread: its listener passes, on top of
     * what the thread has done for the lost members before it.
     */
    method TakeOverNextLost(member: Address, newView: seq<Address>, env: Environment,
                            ghost lost: seq<Address>, ghost passes: seq<TakeOver>, ghost oks: seq<bool>,
                            ghost store0: Store, ghost cs0: seq<Callback>)
      returns (completed: bool, ghost allPasses: seq<TakeOver>, ghost allOks: seq<bool>)
      requires localAddress.Some? && RegistryValid()
      requires member !in newView && forall a :: a in lost ==> a !in newView
      requires ViewProgress(env, failOverListeners, failOverListeners[..Reached(failOverListeners, elector(newView))],
                            localAddress.value, newView, elector(newView) == Some(localAddress.value),
                            store0, cache, cs0, callbacks, lost, passes, oks)
      modifies this`cache, this`callbacks
      ensures completed <==> Reached(failOverListeners, elector(newView)) == |failOverListeners|
      ensures ViewProgress(env, failOverListeners, failOverListeners[..Reached(failOverListeners, elector(newView))],
                           localAddress.value, newView, elector(newView) == Some(localAddress.value),
                           store0, cache, cs0, callbacks, lost + [member], allPasses, allOks)
    {
      ghost var before, mid := cache, callbacks;
      ghost var mPasses, mOks;
      completed, mPasses, mOks := TakeOverLostMember(member, newView, env);
      ViewProgressStep(env, failOverListeners, failOverListeners[..Reached(failOverListeners, elector(newView))],
                       localAddress.value, newView, elector(newView) == Some(localAddress.value), hasTxManager,
                       store0, before, cache, cs0, mid, callbacks, lost, passes, oks, member, mPasses, mOks);
      allPasses, allOks := passes + mPasses, oks + mOks;
    }

    /**
     * One member of the old view in the takeover thread: nothing happens for
     * a member still in the new view; a lost one is taken over and, when the
     * cluster-wide elector throws, ends the thread (`completed` is false).
     */
    method TakeOverOldMember(oldView: seq<Address>, i: nat, newView: seq<Address>, env: Environment,
                             lost: seq<Address>, ghost passes: seq<TakeOver>, ghost oks: seq<bool>,
                             ghost store0: Store, ghost cs0: seq<Callback>)
      returns (lost': seq<Address>, completed: bool, ghost passes': seq<TakeOver>, ghost oks': seq<bool>)
      requires localAddress.Some? && RegistryValid()
      requires i < |oldView| && lost == LostMembers(oldView[..i], newView)
      requires lost != [] ==> Reached(failOverListeners, elector(newView)) == |failOverListeners|
      requires ViewProgress(env, failOverListeners, failOverListeners[..Reached(failOverListeners, elector(newView))],
                            localAddress.value, newView, elector(newView) == Some(localAddress.value),
                            store0, cache, cs0, callbacks, lost, passes, oks)
      modifies this`cache, this`callbacks
      ensures completed ==> lost' == LostMembers(oldView[..i + 1], newView)
      ensures completed && lost' != [] ==> Reached(failOverListeners, elector(newView)) == |failOverListeners|
      ensures !completed ==> LostMembers(oldView, newView) != [] && lost' == [LostMembers(oldView, newView)[0]] &&
                             Reached(failOverListeners, elector(newView)) < |failOverListeners|
      ensures ViewProgress(env, failOverListeners, failOverListeners[..Reached(failOverListeners, elector(newView))],
                           localAddress.value, newView, elector(newView) == Some(localAddress.value),
                           store0, cache, cs0, callbacks, lost', passes', oks')
    {
      var member := oldView[i];
      LostMembersStep(oldView, i, newView);
      lost', completed, passes', oks' := lost, true, passes, oks;
      if member !in newView {
        completed, passes', oks' := TakeOverNextLost(member, newView, env, lost, passes, oks, store0, cs0);
        lost' := lost + [member];
        if !completed {
          assert lost == [];
          LostMembersPrefix(oldView, i + 1, newView);
        }
      }
    }

    /**
     * The takeover thread of a view change: the members of the old view
     * missing from the new one, in old-view order, each taken over by
     * `TakeOverLostMember`. An exception from the cluster-wide elector ends
     * the thread (`completed` is false); `lost` are the members it reached.
     */
    method TakeOverLostMembers(oldView: seq<Address>, newView: seq<Address>, env: Environment)
      returns (lost: seq<Address>, completed: bool, ghost passes: seq<TakeOver>, ghost oks: seq<bool>)
      requires localAddress.Some? && RegistryValid()
      modifies this`cache, this`callbacks
      ensures lost <= LostMembers(oldView, newView)
      ensures completed <==> LostMembers(oldView, newView) == [] || Reached(failOverListeners, elector(newView)) == |failOverListeners|
      ensures completed ==> lost == LostMembers(oldView, newView)
      ensures !completed ==> lost == [LostMembers(oldView, newView)[0]]
      ensures ViewProgress(env, failOverListeners, failOverListeners[..Reached(failOverListeners, elector(newView))],
                           localAddress.value, newView, elector(newView) == Some(localAddress.value),
                           old(cache), cache, old(callbacks), callbacks, lost, passes, oks)
      ensures localAddress.value in newView && NoDuplicates(oldView) ==> OutcomesFrom(env, passes, oks, old(cache))
      ensures elector(newView) == Some(localAddress.value) && localAddress.value in newView && AllOk(oks) ==>
                NoLostOwner(cache, failOverListeners, LostMembers(oldView, newView))
    {
      lost, completed, passes, oks := [], true, [], [];
      ViewProgressStart(env, failOverListeners, failOverListeners[..Reached(failOverListeners, elector(newView))],
                        localAddress.value, newView, elector(newView) == Some(localAddress.value), cache, callbacks);
      for i := 0 to |oldView|
        invariant completed ==> lost == LostMembers(oldView[..i], newView)
        invariant completed && lost != [] ==> Reached(failOverListeners, elector(newView)) == |failOverListeners|
        invariant !completed ==> LostMembers(oldView, newView) != [] && lost == [LostMembers(oldView, newView)[0]] &&
                                 Reached(failOverListeners, elector(newView)) < |failOverListeners|
        invariant ViewProgress(env, failOverListeners, failOverListeners[..Reached(failOverListeners, elector(newView))],
                               localAddress.value, newView, elector(newView) == Some(localAddress.value),
                               old(cache), cache, old(callbacks), callbacks, lost, passes, oks)
      {
        if completed {
          lost, completed, passes, oks := TakeOverOldMember(oldView, i, newView, env, lost, passes, oks, old(cache), old(callbacks));
        }
      }
      assert oldView[..|oldView|] == oldView;
      if completed && NoDuplicates(oldView) {
        LostMembersNoDuplicates(oldView, newView);
      }
    }

    /**
     * A view change: the new view becomes current, then the takeover thread
     * runs over the captured old view and the new one.
     */
    method OnViewChange(newView: seq<Address>, env: Environment)
      returns (lost: seq<Address>, completed: bool, ghost passes: seq<TakeOver>, ghost oks: seq<bool>)
      requires Valid() && currentView.Some?
      modifies this`currentView, this`cache, this`callbacks
      ensures Valid() && currentView == Some(newView)
      ensures lost <= LostMembers(old(currentView).value, newView)
      ensures completed <==> LostMembers(old(currentView).value, newView) == [] ||
                             Reached(failOverListeners, elector(newView)) == |failOverListeners|
      ensures completed ==> lost == LostMembers(old(currentView).value, newView)
      ensures !completed ==> lost == [LostMembers(old(currentView).value, newView)[0]]
      ensures ViewProgress(env, failOverListeners, failOverListeners[..Reached(failOverListeners, elector(newView))],
                           localAddress.value, newView, elector(newView) == Some(localAddress.value),
                           old(cache), cache, old(callbacks), callbacks, lost, passes, oks)
      ensures localAddress.value in newView && NoDuplicates(old(currentView).value) ==>
                OutcomesFrom(env, passes, oks, old(cache))
      ensures elector(newView) == Some(localAddress.value) && localAddress.value in newView && AllOk(oks) ==>
                NoLostOwner(cache, failOverListeners, LostMembers(old(currentView).value, newView))
    {
      var oldView := currentView.value;
      currentView := Some(newView);
      lost, completed, passes, oks := TakeOverLostMembers(oldView, newView, env);
    }
  }
}
