/**
 * The single-flight task scheduler of lib/main.js (class TaskQueue): at most one
 * task is active; tasks submitted meanwhile wait in a FIFO queue, and when the
 * active task ends the head of the queue is started.
 *
 * A task's action is abstract: it throws synchronously, or returns a promise that
 * later resolves or rejects. The settlement of that promise is the explicit step
 * TaskQueue.Complete.
 */
module TaskScheduler {

  import opened Wrappers

  datatype Action = SyncThrow(error: string) | Resolves(value: string) | Rejects(error: string)

  datatype Task = Task(name: string, action: Action)

  /** What a task's submitter receives: the promise returned by add resolves or rejects. */
  datatype Outcome = Fulfilled(value: string) | Failed(error: string)

  datatype Notice = Notice(task: Task, outcome: Outcome)

  /** Ok, or the defensive errors 'Busy' (startTask) and 'Idle' (onTaskEnd). */
  datatype Status = Ok | Busy | Idle

  function OutcomeOf(a: Action): (o: Outcome)
    ensures o.Fulfilled? <==> a.Resolves?
    ensures o.Fulfilled? ==> o.value == a.value
    ensures o.Failed? ==> o.error == a.error
  {
    match a
    case SyncThrow(e) => Failed(e)
    case Resolves(v) => Fulfilled(v)
    case Rejects(e) => Failed(e)
  }

  /** The notice each of `ts` is owed, in the order of `ts`. */
  function NoticesOf(ts: seq<Task>): (ns: seq<Notice>)
    ensures |ns| == |ts|
  {
    if |ts| == 0 then [] else [Notice(ts[0], OutcomeOf(ts[0].action))] + NoticesOf(ts[1..])
  }

  function Reverse<T>(s: seq<T>): (r: seq<T>)
    ensures |r| == |s|
    ensures forall k {:trigger r[k]} :: 0 <= k < |s| ==> r[k] == s[|s| - 1 - k]
  {
    if s == [] then [] else Reverse(s[1..]) + [s[0]]
  }

  function ActiveSeq(active: Option<Task>): seq<Task> {
    if active.Some? then [active.value] else []
  }

  /**
   * The effect of starting tasks on an idle scheduler: those that threw
   * synchronously (and so ended at once), whichever one is left active, those still
   * queued, and the notices delivered meanwhile, in delivery order.
   */
  datatype Launched = Launched(thrown: seq<Task>, active: Option<Task>, queue: seq<Task>, notices: seq<Notice>)

  /**
   * startTask(t) on an idle scheduler whose queue is `q` (lib/main.js:27-51): t
   * becomes active; a synchronous throw ends it at once through onTaskEnd, which
   * starts the head of `q`, and only after that is t's submitter rejected.
   */
  function Launch(t: Task, q: seq<Task>): Launched
    decreases |q|, 1
  {
    if t.action.SyncThrow? then
      var r := Resume(q);
      Launched([t] + r.thrown, r.active, r.queue, r.notices + [Notice(t, OutcomeOf(t.action))])
    else
      Launched([], Some(t), q, [])
  }

  /** onTaskEnd after the active slot is cleared, with queue `q` (lib/main.js:59-63). */
  function Resume(q: seq<Task>): Launched
    decreases |q|, 0
  {
    if q == [] then Launched([], None, [], []) else Launch(q[0], q[1..])
  }

  /**
   * Starting from `[t] + q` loses, duplicates and reorders nothing: the thrown
   * tasks, then the active one, then the rest of the queue, are exactly `[t] + q`.
   * Thrown tasks all threw synchronously, the active one did not, and an empty slot
   * leaves an empty queue.
   */
  lemma {:induction false} LaunchKeepsOrder(t: Task, q: seq<Task>)
    ensures var r := Launch(t, q);
      && r.thrown + ActiveSeq(r.active) + r.queue == [t] + q
      && (forall k :: 0 <= k < |r.thrown| ==> r.thrown[k].action.SyncThrow?)
      && (r.active.Some? ==> !r.active.value.action.SyncThrow?)
      && (r.active.None? ==> r.queue == [])
    decreases |q|, 1
  {
    if t.action.SyncThrow? {
      ResumeKeepsOrder(q);
      var r := Resume(q);
      assert [t] + r.thrown + ActiveSeq(r.active) + r.queue == [t] + (r.thrown + ActiveSeq(r.active) + r.queue);
    }
  }

  lemma {:induction false} ResumeKeepsOrder(q: seq<Task>)
    ensures var r := Resume(q);
      && r.thrown + ActiveSeq(r.active) + r.queue == q
      && (forall k :: 0 <= k < |r.thrown| ==> r.thrown[k].action.SyncThrow?)
      && (r.active.Some? ==> !r.active.value.action.SyncThrow?)
      && (r.active.None? ==> r.queue == [])
    decreases |q|, 0
  {
    if q != [] {
      LaunchKeepsOrder(q[0], q[1..]);
      assert [q[0]] + q[1..] == q;
    }
  }

  /**
   * The submitters of tasks that threw are notified each once, with the
   * task's own failure, in the reverse of their start order: a task's rejection is
   * delivered only after onTaskEnd has started (and possibly ended) its successors.
   */
  lemma {:induction false} LaunchNotifiesReversed(t: Task, q: seq<Task>)
    ensures var r := Launch(t, q); r.notices == NoticesOf(Reverse(r.thrown))
    decreases |q|, 1
  {
    if t.action.SyncThrow? {
      ResumeNotifiesReversed(q);
      var r := Resume(q);
      assert Reverse([t] + r.thrown) == Reverse(r.thrown) + [t];
      NoticesOfAppend(Reverse(r.thrown), [t]);
    }
  }

  lemma {:induction false} ResumeNotifiesReversed(q: seq<Task>)
    ensures var r := Resume(q); r.notices == NoticesOf(Reverse(r.thrown))
    decreases |q|, 0
  {
    if q != [] {
      LaunchNotifiesReversed(q[0], q[1..]);
    }
  }

  lemma {:induction false} NoticesOfAppend(a: seq<Task>, b: seq<Task>)
    ensures NoticesOf(a + b) == NoticesOf(a) + NoticesOf(b)
  {
    if |a| == 0 {
      assert a + b == b;
    } else {
      var n := Notice(a[0], OutcomeOf(a[0].action));
      calc {
        NoticesOf(a + b);
        { assert (a + b)[0] == a[0] && (a + b)[1..] == a[1..] + b; }
        [n] + NoticesOf(a[1..] + b);
        { NoticesOfAppend(a[1..], b); }
        [n] + (NoticesOf(a[1..]) + NoticesOf(b));
        NoticesOf(a) + NoticesOf(b);
      }
    }
  }

  lemma {:induction false} NoticesOfReverse(s: seq<Task>)
    ensures multiset(NoticesOf(Reverse(s))) == multiset(NoticesOf(s))
  {
    if s != [] {
      NoticesOfReverse(s[1..]);
      NoticesOfAppend(Reverse(s[1..]), [s[0]]);
      assert s == [s[0]] + s[1..];
      NoticesOfAppend([s[0]], s[1..]);
    }
  }

  /** Appending the reversed-order notices of `thrown` keeps notices a permutation of the ended tasks' own. */
  lemma NoticesStayPermutation(notices: seq<Notice>, ended: seq<Task>, thrown: seq<Task>, more: seq<Notice>)
    requires multiset(notices) == multiset(NoticesOf(ended))
    requires more == NoticesOf(Reverse(thrown))
    ensures multiset(notices + more) == multiset(NoticesOf(ended + thrown))
  {
    NoticesOfReverse(thrown);
    NoticesOfAppend(ended, thrown);
    calc {
      multiset(notices + more);
      multiset(notices) + multiset(more);
      multiset(NoticesOf(ended)) + multiset(NoticesOf(thrown));
      multiset(NoticesOf(ended) + NoticesOf(thrown));
    }
  }

  /**
   * When the active task ends, the started tasks followed by the queue are still
   * everything submitted.
   */
  lemma SettleKeepsOrder(submitted: seq<Task>, started: seq<Task>, q: seq<Task>)
    requires submitted == started + q
    ensures var r := Resume(q); submitted == started + r.thrown + ActiveSeq(r.active) + r.queue
  {
    var r := Resume(q);
    ResumeKeepsOrder(q);
    assert started + r.thrown + ActiveSeq(r.active) + r.queue == started + (r.thrown + ActiveSeq(r.active) + r.queue);
  }

  /**
   * When the active task `a` ends and its promise settles, the notices remain a
   * permutation of the ended tasks' own.
   */
  lemma SettleKeepsNotices(ended: seq<Task>, notices: seq<Notice>, q: seq<Task>, a: Task)
    requires multiset(notices) == multiset(NoticesOf(ended))
    ensures var r := Resume(q);
      multiset(notices + r.notices + [Notice(a, OutcomeOf(a.action))])
      == multiset(NoticesOf(ended + [a] + r.thrown))
  {
    var r := Resume(q);
    ResumeNotifiesReversed(q);
    EndedNoticesStayPermutation(ended, notices, a, r.thrown, r.notices);
  }

  lemma EndedNoticesStayPermutation(ended: seq<Task>, notices: seq<Notice>, a: Task,
                                    thrown: seq<Task>, more: seq<Notice>)
    requires multiset(notices) == multiset(NoticesOf(ended))
    requires more == NoticesOf(Reverse(thrown))
    ensures multiset(notices + more + [Notice(a, OutcomeOf(a.action))])
         == multiset(NoticesOf(ended + [a] + thrown))
  {
    var na := Notice(a, OutcomeOf(a.action));
    NoticesOfReverse(thrown);
    NoticesOfAppend(ended, [a]);
    NoticesOfAppend(ended + [a], thrown);
    assert NoticesOf([a]) == [na];
    calc {
      multiset(notices + more + [na]);
      multiset(notices) + multiset(more) + multiset([na]);
      multiset(NoticesOf(ended)) + multiset(NoticesOf(thrown)) + multiset(NoticesOf([a]));
      multiset(NoticesOf(ended) + NoticesOf([a]) + NoticesOf(thrown));
      multiset(NoticesOf(ended + [a] + thrown));
    }
  }

  /** Submitting `t` to an idle scheduler keeps the same bookkeeping consistent. */
  lemma SubmitKeepsBookkeeping(submitted: seq<Task>, started: seq<Task>, ended: seq<Task>,
                               notices: seq<Notice>, t: Task)
    requires submitted == started && started == ended
    requires multiset(notices) == multiset(NoticesOf(ended))
    ensures var r := Launch(t, []);
      && submitted + [t] == started + r.thrown + ActiveSeq(r.active) + r.queue
      && r.queue == []
      && multiset(notices + r.notices) == multiset(NoticesOf(ended + r.thrown))
  {
    var r := Launch(t, []);
    assert Resume([]) == Launched([], None, [], []);
    if t.action.SyncThrow? {
      assert r == Launched([t], None, [], [Notice(t, OutcomeOf(t.action))]);
      assert started + r.thrown + ActiveSeq(r.active) + r.queue == started + [t];
    } else {
      assert r == Launched([], Some(t), [], []);
      assert started + r.thrown + ActiveSeq(r.active) + r.queue == started + [t];
    }
    LaunchNotifiesReversed(t, []);
    NoticesStayPermutation(notices, ended, r.thrown, r.notices);
  }

  /**
   * A failure never stalls the queue: when a task ends and tasks are waiting, the
   * head of the queue is the next task started.
   */
  lemma ResumeStartsHead(q: seq<Task>)
    requires q != []
    ensures var r := Resume(q); r.thrown + ActiveSeq(r.active) != [] && (r.thrown + ActiveSeq(r.active))[0] == q[0]
  {
    ResumeKeepsOrder(q);
  }

  /**
   * The order in which a chain of synchronous failures is reported: with A and B
   * throwing and C pending, B's submitter hears first, then A's, and C stays active.
   */
  lemma ReversedNoticeScenario(a: Task, b: Task, c: Task)
    requires a.action.SyncThrow? && b.action.SyncThrow? && c.action.Resolves?
    ensures Launch(a, [b, c]) == Launched([a, b], Some(c), [],
      [Notice(b, Failed(b.action.error)), Notice(a, Failed(a.action.error))])
  {
    assert [b, c][1..] == [c];
    assert Resume([c]) == Launched([], Some(c), [], []);
    assert Resume([b, c]) == Launched([b], Some(c), [], [Notice(b, Failed(b.action.error))]);
  }

  class TaskQueue {
    var queue: seq<Task>
    var active: Option<Task>

    /** Every task ever passed to add, in order. */
    ghost var submitted: seq<Task>
    /** Every task whose action was invoked, in order. */
    ghost var started: seq<Task>
    /** Every task that went through onTaskEnd, in order. */
    ghost var ended: seq<Task>
    /** Every settlement of a submitter's promise, in delivery order. */
    ghost var notices: seq<Notice>

    /**
     * The scheduler invariant: a waiting task implies an active one, and the active
     * task is one whose promise is pending. Tasks start in submission order (what
     * has started, followed by the queue, is everything submitted), end in start
     * order, and every ended task's submitter got that task's own outcome once.
     */
    ghost predicate Valid()
      reads this
    {
      && (queue != [] ==> active.Some?)
      && (active.Some? ==> !active.value.action.SyncThrow?)
      && submitted == started + queue
      && started == ended + ActiveSeq(active)
      && multiset(notices) == multiset(NoticesOf(ended))
    }

    constructor ()
      ensures Valid()
      ensures queue == [] && active == None
      ensures submitted == [] && notices == []
    {
      queue := [];
      active := None;
      submitted, started, ended, notices := [], [], [], [];
    }

    /** add(name, action) (lib/main.js:10-25): start it when idle, else append it to the queue. */
    method Add(t: Task)
      requires Valid()
      modifies this
      ensures Valid()
      ensures submitted == old(submitted) + [t]
      ensures old(active).Some? ==>
        && queue == old(queue) + [t] && active == old(active)
        && started == old(started) && ended == old(ended) && notices == old(notices)
      ensures old(active).None? ==>
        var r := Launch(t, []);
        && active == r.active && queue == [] && started == old(started) + [t]
        && ended == old(ended) + r.thrown && notices == old(notices) + r.notices
    {
      if active.None? {
        assert queue == [] && started == ended;
        SubmitKeepsBookkeeping(submitted, started, ended, notices, t);
        LaunchKeepsOrder(t, []);
        ghost var r := Launch(t, []);
        submitted := submitted + [t];
        var status := StartTask(t);
        assert active == r.active && queue == r.queue;
        assert ended == old(ended) + r.thrown && notices == old(notices) + r.notices;
        assert started == old(started) + r.thrown + ActiveSeq(r.active);
      } else {
        submitted := submitted + [t];
        queue := queue + [t];
      }
    }

    /**
     * startTask(t) (lib/main.js:27-51): 'Busy' when a task is active; otherwise t
     * becomes active and, when its action throws synchronously, ends at once and
     * its submitter is rejected after onTaskEnd has run.
     */
    method StartTask(t: Task) returns (status: Status)
      modifies this
      decreases |queue|, 1
      ensures old(active).Some? ==> status == Busy && unchanged(this)
      ensures old(active).None? ==>
        var r := Launch(t, old(queue));
        && status == Ok
        && active == r.active && queue == r.queue && submitted == old(submitted)
        && started == old(started) + r.thrown + ActiveSeq(r.active)
        && ended == old(ended) + r.thrown
        && notices == old(notices) + r.notices
    {
      if active.Some? {
        return Busy;
      }
      active := Some(t);
      started := started + [t];
      if t.action.SyncThrow? {
        var ending := OnTaskEnd();
        notices := notices + [Notice(t, OutcomeOf(t.action))];
      }
      status := Ok;
    }

    /**
     * onTaskEnd() (lib/main.js:53-64): 'Idle' when no task is active; otherwise
     * clear the slot and start the head of the queue, if any.
     */
    method OnTaskEnd() returns (status: Status)
      modifies this
      decreases |queue|, 0
      ensures old(active).None? ==> status == Idle && unchanged(this)
      ensures old(active).Some? ==>
        var r := Resume(old(queue));
        && status == Ok
        && active == r.active && queue == r.queue && submitted == old(submitted)
        && started == old(started) + r.thrown + ActiveSeq(r.active)
        && ended == old(ended) + [old(active).value] + r.thrown
        && notices == old(notices) + r.notices
    {
      if active.None? {
        return Idle;
      }
      ended := ended + [active.value];
      active := None;
      if queue != [] {
        var head := queue[0];
        queue := queue[1..];
        var starting := StartTask(head);
      }
      status := Ok;
    }

    /**
     * The active task's promise settles (lib/main.js:44-50): onTaskEnd, then the
     * submitter gets the same outcome. With no active task onTaskEnd throws 'Idle'
     * and nothing changes.
     */
    method Complete() returns (status: Status)
      requires Valid()
      modifies this
      ensures Valid()
      ensures old(active).None? ==> status == Idle && unchanged(this)
      ensures old(active).Some? ==>
        var a := old(active).value;
        var r := Resume(old(queue));
        && status == Ok
        && active == r.active && queue == r.queue && submitted == old(submitted)
        && started == old(started) + r.thrown + ActiveSeq(r.active)
        && ended == old(ended) + [a] + r.thrown
        && notices == old(notices) + r.notices + [Notice(a, OutcomeOf(a.action))]
    {
      if active.None? {
        return Idle;
      }
      var a := active.value;
      SettleKeepsOrder(submitted, started, queue);
      SettleKeepsNotices(ended, notices, queue, a);
      ResumeKeepsOrder(queue);
      status := OnTaskEnd();
      notices := notices + [Notice(a, OutcomeOf(a.action))];
    }
  }

  /** Three tasks submitted back to back to a fresh scheduler: the first starts, the others wait. */
  method SubmitThree(a: Task, b: Task, c: Task) returns (tq: TaskQueue)
    requires a.action.Resolves?
    ensures fresh(tq) && tq.Valid()
    ensures tq.active == Some(a) && tq.queue == [b, c] && tq.started == [a] && tq.notices == []
  {
    tq := new TaskQueue();
    assert Launch(a, []) == Launched([], Some(a), [], []);
    tq.Add(a);
    tq.Add(b);
    tq.Add(c);
  }

  /**
   * The three tasks then run one at a time in submission order, and each submitter
   * hears its own task's outcome as that task settles, in that order.
   */
  method FifoRunScenario() returns (statuses: seq<Status>, active: Option<Task>, queue: seq<Task>,
                                    ghost started: seq<Task>, ghost notices: seq<Notice>)
    ensures statuses == [Ok, Ok, Ok] && active == None && queue == []
    ensures started == [Task("a", Resolves("1")), Task("b", Rejects("e")), Task("c", Resolves("3"))]
    ensures notices == [Notice(started[0], Fulfilled("1")), Notice(started[1], Failed("e")),
                        Notice(started[2], Fulfilled("3"))]
  {
    var a := Task("a", Resolves("1"));
    var b := Task("b", Rejects("e"));
    var c := Task("c", Resolves("3"));
    var tq := SubmitThree(a, b, c);
    assert Resume([b, c]) == Launched([], Some(b), [c], []);
    var s1 := tq.Complete();
    assert tq.active == Some(b) && tq.queue == [c] && tq.notices == [Notice(a, Fulfilled("1"))];
    assert Resume([c]) == Launched([], Some(c), [], []);
    var s2 := tq.Complete();
    assert tq.active == Some(c) && tq.queue == [];
    var s3 := tq.Complete();
    assert tq.active == None && tq.queue == [] && tq.started == [a, b, c];
    assert tq.notices == [Notice(a, Fulfilled("1")), Notice(b, Failed("e")), Notice(c, Fulfilled("3"))];
    statuses, active, queue := [s1, s2, s3], tq.active, tq.queue;
    started, notices := tq.started, tq.notices;
  }
}
