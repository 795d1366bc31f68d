/**
 * The init-task bookkeeping of the root container. A web application can ask for a task to
 * run on a portal container before its initialization (pre-init), after it (post-init) or
 * after its creation (post-create). A task whose portal container already exists is handled
 * at once; any other task is queued under the name of its portal container and its type, in
 * a FIFO queue, or in a queue ordered by the dependency comparator when the portal container
 * has dependencies. Creating the portal container later drains the queues type by type.
 */
module RootContainers {
  import opened Wrappers
  import opened DependencyOrder

  /** The three kinds of init task. */
  datatype TaskType = PreInit | PostInit | PostCreate

  /** The `TYPE` constant of each kind, the key of its queue. */
  function TypeName(k: TaskType): string {
    match k
    case PreInit => "pre-init"
    case PostInit => "post-init"
    case PostCreate => "post-create"
  }

  /** The three kinds have three different queue keys. */
  lemma TypeNamesDistinct(k1: TaskType, k2: TaskType)
    ensures TypeName(k1) == TypeName(k2) <==> k1 == k2
  {
  }

  /** A task object: its identity and its kind. What it does when run is not modelled. */
  datatype InitTask = InitTask(id: nat, kind: TaskType)

  /** What a task sees of a portal container that exists: its name and whether it is started. */
  datatype PortalContainerState = PortalContainerState(name: string, started: bool)

  /**
   * alreadyExists: a pre-init task comes too late once the portal container exists at all;
   * the other two only once it is also started.
   */
  predicate AlreadyExists(k: TaskType, c: Option<PortalContainerState>) {
    match k
    case PreInit => c.Some?
    case PostInit => c.Some? && c.value.started
    case PostCreate => c.Some? && c.value.started
  }

  /** A queued task with the servlet context it comes from. */
  datatype TaskContext = TaskContext(context: WebAppInitContext, task: InitTask)

  /** The key the comparator orders task contexts by. */
  function ContextName(c: TaskContext): string {
    c.context.contextName
  }

  /**
   * A queue of task contexts in the order `poll` yields them: FIFO when `order` is `None`,
   * ordered by the dependency comparator over the list in `order` otherwise.
   */
  datatype TaskQueue = TaskQueue(order: Option<seq<string>>, items: seq<TaskContext>)

  /** The queue created for a portal container with the dependency list `deps` (an empty list or null means no order). */
  function NewQueue(deps: seq<string>): (q: TaskQueue)
    ensures q.items == []
    ensures q.order.None? <==> deps == []
  {
    TaskQueue(if deps == [] then None else Some(deps), [])
  }

  /** Queue.add: at the tail of a FIFO queue, at its comparator position in an ordered one. */
  function Offer(q: TaskQueue, x: TaskContext): TaskQueue {
    match q.order
    case None => q.(items := q.items + [x])
    case Some(deps) => q.(items := InsertOrdered(deps, q.items, x, ContextName))
  }

  /** An ordered queue is in comparator order. */
  ghost predicate QueueOk(q: TaskQueue) {
    q.order.Some? ==> Ordered(q.order.value, q.items, ContextName)
  }

  /**
   * Adding keeps the queue's order: a FIFO queue gets `x` last, an ordered one stays ordered,
   * and either way the queue holds its old contexts and `x`.
   */
  lemma OfferKeepsOrder(q: TaskQueue, x: TaskContext)
    requires QueueOk(q)
    ensures QueueOk(Offer(q, x)) && Offer(q, x).order == q.order
    ensures q.order.None? ==> Offer(q, x).items == q.items + [x]
    ensures multiset(Offer(q, x).items) == multiset(q.items) + multiset{x}
  {
    if q.order.Some? {
      InsertOrderedKeepsOrder(q.order.value, q.items, x, ContextName);
      InsertOrderedPermutes(q.order.value, q.items, x, ContextName);
    }
  }

  /** One run of a task's `execute` on a portal container, with the servlet context it was added from. */
  datatype Execution = Execution(task: InitTask, context: WebAppInitContext, container: string)

  /** The runs of the queued contexts `items` on the portal container `name`, in queue order. */
  function Runs(items: seq<TaskContext>, name: string): (r: seq<Execution>)
    ensures |r| == |items|
    ensures forall i :: 0 <= i < |items| ==> r[i] == Execution(items[i].task, items[i].context, name)
  {
    if items == [] then [] else Runs(items[..|items| - 1], name) + [Execution(items[|items| - 1].task, items[|items| - 1].context, name)]
  }

  class RootContainer {
    /** The queues of the tasks waiting for each portal container, by portal container name and task type. */
    var initTasks: map<string, map<string, TaskQueue>>
    /** Every run of a task, in order. */
    ghost var executed: seq<Execution>

    /**
     * Each queue is in its order and holds tasks of the type it is filed under, and no
     * portal container is left with an empty map of queues.
     */
    ghost predicate Valid()
      reads this`initTasks
    {
      forall c :: c in initTasks ==> initTasks[c] != map[] && QueuesOk(initTasks[c])
    }

    /** Each queue of one portal container is in its order and holds tasks of the type it is filed under. */
    static ghost predicate QueuesOk(queues: map<string, TaskQueue>) {
      forall t :: t in queues ==> QueueOk(queues[t]) && OfType(queues[t], t)
    }

    /** Every task in `q` has the type named `t`. */
    static ghost predicate OfType(q: TaskQueue, t: string) {
      forall i :: 0 <= i < |q.items| ==> TypeName(q.items[i].task.kind) == t
    }

    /** A root container with no waiting task. */
    constructor ()
      ensures Valid() && initTasks == map[] && executed == []
    {
      initTasks := map[];
      executed := [];
    }

    /** The queues of `c` after `x` is added to the queue of type `t`, created with the order for `deps` if missing. */
    static function Filed(queues: map<string, TaskQueue>, t: string, x: TaskContext, deps: seq<string>): map<string, TaskQueue> {
      queues[t := Offer(if t in queues then queues[t] else NewQueue(deps), x)]
    }

    /**
     * addInitTask: `container` is the portal container registered under `appContainer`, or
     * null, and `deps` its dependency list. When the task already exists for it, a pre-init task
     * throws IllegalStateException and any other task runs at once; otherwise the task is queued.
     */
    method AddInitTask(context: WebAppInitContext, task: InitTask, appContainer: string,
                       container: Option<PortalContainerState>, deps: seq<string>) returns (r: Outcome)
      requires Valid()
      modifies this`initTasks, this`executed
      ensures Valid()
      ensures AlreadyExists(task.kind, container) && task.kind == PreInit ==>
                r == Fail(IllegalState) && initTasks == old(initTasks) && executed == old(executed)
      ensures AlreadyExists(task.kind, container) && task.kind != PreInit ==>
                r == Pass && initTasks == old(initTasks) &&
                executed == old(executed) + [Execution(task, context, appContainer)]
      ensures !AlreadyExists(task.kind, container) ==>
                r == Pass && executed == old(executed) &&
                initTasks == old(initTasks)[appContainer :=
                  Filed(if appContainer in old(initTasks) then old(initTasks)[appContainer] else map[],
                        TypeName(task.kind), TaskContext(context, task), deps)]
    {
      if AlreadyExists(task.kind, container) {
        if task.kind == PreInit {
          return Fail(IllegalState);
        }
        executed := executed + [Execution(task, context, appContainer)];
        return Pass;
      }
      var queues := if appContainer in initTasks then initTasks[appContainer] else map[];
      var t := TypeName(task.kind);
      var queue := if t in queues then queues[t] else NewQueue(deps);
      var x := TaskContext(context, task);
      OfferKeepsOrder(queue, x);
      FiledKinds(queue, x, t);
      initTasks := initTasks[appContainer := queues[t := Offer(queue, x)]];
      r := Pass;
    }

    /** Adding a context of type `t` to a queue of contexts of type `t` gives a queue of contexts of type `t`. */
    static lemma FiledKinds(q: TaskQueue, x: TaskContext, t: string)
      requires OfType(q, t) && TypeName(x.task.kind) == t
      ensures OfType(Offer(q, x), t)
    {
      var r := Offer(q, x).items;
      assert multiset(r) == multiset(q.items) + multiset{x} by {
        if q.order.Some? {
          InsertOrderedPermutes(q.order.value, q.items, x, ContextName);
        }
      }
      forall i | 0 <= i < |r| ensures TypeName(r[i].task.kind) == t {
        assert r[i] in multiset(r);
        if r[i] != x {
          assert r[i] in multiset(q.items);
          var j :| 0 <= j < |q.items| && q.items[j] == r[i];
        }
      }
    }

    /**
     * executeInitTasks: runs every task queued for the portal container `name` under the type
     * `k`, in poll order, then drops that queue, and the container's entry when it was the
     * last one. Without a queue nothing happens.
     */
    method ExecuteInitTasks(name: string, k: TaskType)
      requires Valid()
      modifies this`initTasks, this`executed
      ensures Valid()
      ensures name !in old(initTasks) || TypeName(k) !in old(initTasks)[name] ==>
                initTasks == old(initTasks) && executed == old(executed)
      ensures name in old(initTasks) && TypeName(k) in old(initTasks)[name] ==>
                executed == old(executed) + Runs(old(initTasks)[name][TypeName(k)].items, name) &&
                var rest := old(initTasks)[name] - {TypeName(k)};
                initTasks == (if rest == map[] then old(initTasks) - {name} else old(initTasks)[name := rest])
    {
      if name !in initTasks {
        return;
      }
      var queues := initTasks[name];
      var t := TypeName(k);
      if t !in queues {
        return;
      }
      var items := queues[t].items;
      var i := 0;
      while i < |items|
        invariant 0 <= i <= |items|
        invariant executed == old(executed) + Runs(items[..i], name)
        invariant initTasks == old(initTasks)
      {
        assert items[..i + 1][..i] == items[..i];
        executed := executed + [Execution(items[i].task, items[i].context, name)];
        i := i + 1;
      }
      assert items[..i] == items;
      queues := queues - {t};
      assert QueuesOk(queues);
      if queues == map[] {
        initTasks := initTasks - {name};
      } else {
        initTasks := initTasks[name := queues];
      }
    }

    /**
     * The cleanup ending createPortalContainers: every portal container name that still has
     * waiting tasks is returned, to be unregistered from the configuration, and all the
     * waiting tasks are dropped without running.
     */
    method DiscardInitTasks() returns (unregistered: set<string>)
      modifies this`initTasks
      ensures Valid()
      ensures unregistered == old(initTasks).Keys
      ensures initTasks == map[]
    {
      var names := initTasks.Keys;
      ghost var keys := names;
      unregistered := {};
      while names != {}
        invariant unregistered + names == keys && unregistered !! names
        invariant initTasks == old(initTasks)
        decreases |names|
      {
        var n :| n in names;
        unregistered := unregistered + {n};
        names := names - {n};
      }
      initTasks := map[];
    }
  }
}
