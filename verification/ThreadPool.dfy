/**
 The bounded queue of utils/thread_pool.h: what happens under its mutex. Waiting, signalling and the
 interleaving of threads are in AsyncJobs.
 */
module ThreadPool {

  /** A job: the plugin it was submitted for and its place in the order of acceptance. */
  datatype Job = Job(plugin: string, serial: nat)

  /** What a worker that holds the mutex does next. */
  datatype Decision = Sleep | Leave | Run(job: Job)

  predicate Accepts(queue: seq<Job>, stop: bool, maxQueue: nat) {
    !stop && |queue| < maxQueue
  }

  function Decide(queue: seq<Job>, stop: bool): Decision {
    if !stop && queue == [] then Sleep
    else if queue == [] then Leave
    else Run(queue[0])
  }

  class Pool {
    var tasks: seq<Job>
    var stop: bool
    const maxQueue: nat

    constructor (max: nat)
      ensures tasks == [] && !stop && maxQueue >= 1 && (max >= 1 ==> maxQueue == max)
    {
      tasks, stop := [], false;
      maxQueue := if max == 0 then 1 else max;
    }

    /** The critical section of Submit: take the job unless stopped or full. */
    method Submit(job: Job) returns (accepted: bool)
      requires |tasks| <= maxQueue
      modifies this`tasks
      ensures |tasks| <= maxQueue
      ensures accepted == Accepts(old(tasks), stop, maxQueue)
      ensures !accepted <==> stop || |old(tasks)| == maxQueue
      ensures tasks == if accepted then old(tasks) + [job] else old(tasks)
    {
      if stop || |tasks| >= maxQueue {
        return false;
      }
      tasks := tasks + [job];
      return true;
    }

    /** The critical section of WorkerLoop, the wait predicate included: Sleep is going back to wait. */
    method Next() returns (d: Decision)
      modifies this`tasks
      ensures d == Decide(old(tasks), stop)
      ensures d == Sleep <==> !stop && old(tasks) == []
      ensures d == Leave <==> stop && old(tasks) == []
      ensures old(tasks) != [] ==> d == Run(old(tasks)[0])
      ensures tasks == if d.Run? then old(tasks)[1..] else old(tasks)
    {
      if !(stop || |tasks| > 0) {
        return Sleep;
      }
      if stop && |tasks| == 0 {
        return Leave;
      }
      d := Run(tasks[0]);
      tasks := tasks[1..];
    }

    /** The critical section of Shutdown: only the first caller goes on to notify and join. */
    method RequestStop() returns (first: bool)
      modifies this`stop
      ensures stop && first == !old(stop)
    {
      first := !stop;
      stop := true;
    }
  }
}
