/**
 The locks that make the handlers of one UDP key exclude each other (src/udp/mod.rs): a table
 of shared mutexes, one per key, from which idle ones are removed.

 A step is one access to an entry of the table, or one action of a packet task: taking the
 mutex, releasing it, giving up its reference, or being cancelled. The count of references to
 a mutex can only grow while its table entry is held.
 */
module KeyLocks {
  import opened Common

  type Key = nat
  type LockId = nat
  type TaskId = nat

  /** Where a packet task stands: queued on the mutex, inside, or past it with its reference still there. */
  datatype Phase = Queued | Inside | Leaving

  datatype Task = Task(key: Key, mutex: LockId, phase: Phase)

  datatype State = State(locks: map<Key, LockId>, tasks: map<TaskId, Task>)

  datatype Action =
    | Clone(task: TaskId, key: Key, spare: LockId)
    | Lock(task: TaskId)
    | Unlock(task: TaskId)
    | Drop(task: TaskId)
    | Cancel(task: TaskId)
    | Retain(key: Key)

  const START := State(map[], map[])

  /** The tasks that refer to the mutex. */
  function Holders(s: State, mutex: LockId): set<TaskId> {
    set t | t in s.tasks && s.tasks[t].mutex == mutex
  }

  /** `Arc::strong_count` of a mutex in the table: the table itself and the tasks. */
  function StrongCount(s: State, mutex: LockId): nat {
    1 + |Holders(s, mutex)|
  }

  /** A mutex that was just allocated. */
  predicate Unused(s: State, mutex: LockId) {
    mutex !in s.locks.Values && forall t | t in s.tasks :: s.tasks[t].mutex != mutex
  }

  /** Nobody is inside the mutex. */
  predicate Unlocked(s: State, mutex: LockId) {
    forall t | t in s.tasks && s.tasks[t].mutex == mutex :: !s.tasks[t].phase.Inside?
  }

  predicate Enabled(s: State, a: Action) {
    match a
    case Clone(t, key, spare) => t !in s.tasks && Unused(s, spare)
    case Lock(t) => t in s.tasks && s.tasks[t].phase.Queued? && Unlocked(s, s.tasks[t].mutex)
    case Unlock(t) => t in s.tasks && s.tasks[t].phase.Inside?
    case Drop(t) => t in s.tasks && s.tasks[t].phase.Leaving?
    case Cancel(t) => t in s.tasks
    case Retain(key) => key in s.locks
  }

  /** `get_udp_key_lock`: the mutex of the key, a new one if there is none. */
  function Cloned(s: State, t: TaskId, key: Key, spare: LockId): State {
    var mutex := if key in s.locks then s.locks[key] else spare;
    State(s.locks[key := mutex], s.tasks[t := Task(key, mutex, Queued)])
  }

  /** `reap_idle_udp_key_locks`, for one entry. */
  function Retained(s: State, key: Key): State
    requires key in s.locks
  {
    if StrongCount(s, s.locks[key]) > 1 then s else s.(locks := s.locks - {key})
  }

  function Step(s: State, a: Action): State
    requires Enabled(s, a)
  {
    match a
    case Clone(t, key, spare) => Cloned(s, t, key, spare)
    case Lock(t) => s.(tasks := s.tasks[t := s.tasks[t].(phase := Inside)])
    case Unlock(t) => s.(tasks := s.tasks[t := s.tasks[t].(phase := Leaving)])
    case Drop(t) => s.(tasks := s.tasks - {t})
    case Cancel(t) => s.(tasks := s.tasks - {t})
    case Retain(key) => Retained(s, key)
  }

  function Run(s: State, run: seq<Action>): Option<State>
    decreases |run|
  {
    if run == [] then Some(s)
    else if Enabled(s, run[0]) then Run(Step(s, run[0]), run[1..])
    else None
  }

  // ----- the invariant

  /** Every task refers to the mutex that the table has for its key. */
  predicate SharesTable(s: State) {
    forall t | t in s.tasks :: s.tasks[t].key in s.locks && s.locks[s.tasks[t].key] == s.tasks[t].mutex
  }

  /** Different keys have different mutexes. */
  predicate OneKeyEach(s: State) {
    forall k, l | k in s.locks && l in s.locks && s.locks[k] == s.locks[l] :: k == l
  }

  predicate OneInside(s: State) {
    forall t, u | t in s.tasks && u in s.tasks && s.tasks[t].mutex == s.tasks[u].mutex
                  && s.tasks[t].phase.Inside? && s.tasks[u].phase.Inside? :: t == u
  }

  predicate Inv(s: State) {
    SharesTable(s) && OneKeyEach(s) && OneInside(s)
  }

  lemma NoHolders(s: State, mutex: LockId)
    ensures StrongCount(s, mutex) == 1 <==> forall t | t in s.tasks :: s.tasks[t].mutex != mutex
  {
    if StrongCount(s, mutex) == 1 {
      assert Holders(s, mutex) == {};
      assert forall t | t in s.tasks && s.tasks[t].mutex == mutex :: t in Holders(s, mutex);
    } else {
      var t :| t in Holders(s, mutex);
    }
  }

  lemma CloneKeepsInv(s: State, t: TaskId, key: Key, spare: LockId)
    requires Inv(s) && Enabled(s, Clone(t, key, spare))
    ensures Inv(Cloned(s, t, key, spare))
  {
    assert forall k | k in s.locks :: s.locks[k] in s.locks.Values;
  }

  lemma RetainKeepsInv(s: State, key: Key)
    requires Inv(s) && key in s.locks
    ensures Inv(Retained(s, key))
  {
    NoHolders(s, s.locks[key]);
  }

  lemma StepKeepsInv(s: State, a: Action)
    requires Inv(s) && Enabled(s, a)
    ensures Inv(Step(s, a))
  {
    match a {
      case Clone(t, key, spare) => CloneKeepsInv(s, t, key, spare);
      case Retain(key) => RetainKeepsInv(s, key);
      case _ =>
    }
  }

  lemma {:induction false} RunKeepsInv(s: State, run: seq<Action>)
    requires Inv(s) && Run(s, run).Some?
    ensures Inv(Run(s, run).value)
    decreases |run|
  {
    hide Inv, Step, Enabled;
    if run == [] {
    } else {
      StepKeepsInv(s, run[0]);
      RunKeepsInv(Step(s, run[0]), run[1..]);
    }
  }

  // ----- what holds in every reachable state

  ghost predicate Reachable(s: State) {
    exists run: seq<Action> :: Run(START, run) == Some(s)
  }

  lemma ReachableInv(s: State)
    requires Reachable(s)
    ensures Inv(s)
  {
    var run: seq<Action> :| Run(START, run) == Some(s);
    RunKeepsInv(START, run);
  }

  /** At most one handler of a key is inside its section. */
  lemma HandlersExclude(s: State, t: TaskId, u: TaskId)
    requires Reachable(s) && t in s.tasks && u in s.tasks && s.tasks[t].key == s.tasks[u].key
    requires s.tasks[t].phase.Inside? && s.tasks[u].phase.Inside?
    ensures t == u
  {
    ReachableInv(s);
  }

  /**
   Two tasks meet at a mutex exactly if they have the same key: no retain ever splits a key,
   and no key waits for another.
   */
  lemma SameLockIffSameKey(s: State, t: TaskId, u: TaskId)
    requires Reachable(s) && t in s.tasks && u in s.tasks
    ensures s.tasks[t].mutex == s.tasks[u].mutex <==> s.tasks[t].key == s.tasks[u].key
  {
    ReachableInv(s);
  }

  /** A queued task can go on exactly if no task of its key is inside. */
  lemma QueueMoves(s: State, t: TaskId)
    requires Reachable(s) && t in s.tasks && s.tasks[t].phase.Queued?
    ensures Enabled(s, Lock(t)) <==>
            forall u | u in s.tasks && s.tasks[u].key == s.tasks[t].key :: !s.tasks[u].phase.Inside?
  {
    forall u | u in s.tasks
      ensures s.tasks[u].mutex == s.tasks[t].mutex <==> s.tasks[u].key == s.tasks[t].key
    {
      SameLockIffSameKey(s, t, u);
    }
  }

  /** An entry goes exactly if no task of its key is there any more: no lock in use is lost, no idle one stays. */
  lemma RetainRemovesIdle(s: State, key: Key)
    requires Reachable(s) && key in s.locks
    ensures key !in Step(s, Retain(key)).locks <==> forall t | t in s.tasks :: s.tasks[t].key != key
    ensures forall k | k in s.locks && k != key ::
              k in Step(s, Retain(key)).locks && Step(s, Retain(key)).locks[k] == s.locks[k]
  {
    ReachableInv(s);
    NoHolders(s, s.locks[key]);
  }

  // ----- the code

  class UdpKeyLocks {
    var locks: map<Key, LockId>
    ghost var state: State

    ghost predicate Valid()
      reads this
    {
      Reachable(state) && locks == state.locks
    }

    constructor ()
      ensures Valid() && state == START
    {
      locks, state := map[], START;
      assert Run(START, []) == Some(START);
    }

    /** `get_udp_key_lock`: the mutex that every task of the key has. */
    method GetLock(key: Key, me: TaskId, spare: LockId) returns (mutex: LockId)
      requires Valid() && Enabled(state, Clone(me, key, spare))
      modifies this
      ensures Valid() && state == Step(old(state), Clone(me, key, spare))
      ensures forall t | t in state.tasks :: state.tasks[t].key == key <==> state.tasks[t].mutex == mutex
    {
      OneMore(state, Clone(me, key, spare));
      state := Step(state, Clone(me, key, spare));
      if key !in locks {
        locks := locks[key := spare];
      }
      mutex := locks[key];
      assert state.locks == locks;
      assert me in state.tasks && state.tasks[me] == Task(key, mutex, Queued);
      forall t | t in state.tasks
        ensures state.tasks[t].key == key <==> state.tasks[t].mutex == mutex
      {
        SameLockIffSameKey(state, t, me);
      }
    }

    /** `reap_idle_udp_key_locks`: what stays are exactly the locks of the keys that have tasks. */
    method ReapIdle(counts: map<LockId, nat>)
      requires Valid()
      requires forall k | k in locks :: locks[k] in counts && counts[locks[k]] == StrongCount(state, locks[k])
      modifies this
      ensures Valid() && state.tasks == old(state).tasks
      ensures forall k :: k in locks <==> exists t | t in state.tasks :: state.tasks[t].key == k
      ensures forall k | k in locks :: k in old(locks) && locks[k] == old(locks)[k]
    {
      var keys := locks.Keys;
      ghost var tasks := state.tasks;
      while keys != {}
        invariant Valid() && state.tasks == tasks && keys <= locks.Keys <= old(locks).Keys
        invariant forall k | k in locks :: locks[k] == old(locks)[k]
        invariant forall k | k in locks && k !in keys :: exists t | t in tasks :: tasks[t].key == k
        decreases keys
      {
        var k :| k in keys;
        RetainRemovesIdle(state, k);
        OneMore(state, Retain(k));
        SameCount(old(state), state, locks[k]);
        state := Step(state, Retain(k));
        if counts[locks[k]] <= 1 {
          locks := locks - {k};
        }
        keys := keys - {k};
      }
      ReachableInv(state);
    }
  }

  lemma SameCount(s: State, s': State, mutex: LockId)
    requires s.tasks == s'.tasks
    ensures StrongCount(s, mutex) == StrongCount(s', mutex)
  {
    assert Holders(s, mutex) == Holders(s', mutex);
  }

  lemma {:induction false} RunOneMore(s: State, run: seq<Action>, a: Action)
    requires Run(s, run).Some? && Enabled(Run(s, run).value, a)
    ensures Run(s, run + [a]) == Some(Step(Run(s, run).value, a))
    decreases |run|
  {
    hide Step, Enabled;
    if run == [] {
      assert run + [a] == [a] && [a][1..] == [];
      assert Run(Step(s, a), []) == Some(Step(s, a));
    } else {
      assert (run + [a])[1..] == run[1..] + [a];
      RunOneMore(Step(s, run[0]), run[1..], a);
    }
  }

  lemma OneMore(s: State, a: Action)
    requires Reachable(s) && Enabled(s, a)
    ensures Reachable(Step(s, a))
  {
    hide Run, Step, Enabled;
    var run: seq<Action> :| Run(START, run) == Some(s);
    RunOneMore(START, run, a);
  }
}
