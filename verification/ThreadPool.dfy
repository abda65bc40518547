/**
 * The thread pool: any number of workers take indices of a range one at a time, each critical
 * section being one step. What runs between the sections, and in which order the steps come, is free.
 */
module ThreadPool {

  /** A range of indices, and what is to be called for each of them. */
  datatype Range = Range(function_: nat, opaque_: nat, first: int, end: int)

  /** One index of one of the ranges added. */
  datatype Job = Job(range: nat, index: int)

  /** Where a worker is; from popping an index to taking the lock again it is in flight. */
  datatype Worker =
    | Ready
    | Blocked
    | Popped(job: Job)
    | HasFunction(job: Job, f: nat)
    | Running(job: Job, f: nat, o: nat)
    | Returned(job: Job)
    | Exited

  /** The one who adds ranges and waits for them. */
  datatype Caller = Idle | Waiting | Asleep | Stopped

  predicate InFlight(w: Worker) {
    w.Popped? || w.HasFunction? || w.Running? || w.Returned?
  }

  /** In flight, the call not having returned yet. */
  predicate Unfinished(w: Worker) {
    w.Popped? || w.HasFunction? || w.Running?
  }

  /** Neither asleep nor gone. */
  predicate GoesOn(w: Worker) {
    w != Blocked && w != Exited
  }

  /** How many steps a worker takes before it sleeps, if it finds the queue empty. */
  function StepsTo(w: Worker): nat {
    match w
    case Ready => 1
    case Returned(_) => 2
    case Running(_, _, _) => 3
    case HasFunction(_, _) => 4
    case Popped(_) => 5
    case _ => 0
  }

  function StepsLeft(ws: seq<Worker>): nat {
    if ws == [] then 0 else StepsLeft(ws[..|ws| - 1]) + StepsTo(ws[|ws| - 1])
  }

  lemma {:induction false} StepsUpdate(ws: seq<Worker>, i: nat, w: Worker)
    requires i < |ws|
    ensures StepsLeft(ws[i := w]) + StepsTo(ws[i]) == StepsLeft(ws) + StepsTo(w)
  {
    var t, u := ws[..|ws| - 1], ws[i := w];
    if i < |ws| - 1 {
      StepsUpdate(t, i, w);
      assert u[..|u| - 1] == t[i := w];
    } else {
      assert u[..|u| - 1] == t;
    }
  }

  function CountInFlight(ws: seq<Worker>): nat {
    if ws == [] then 0 else CountInFlight(ws[..|ws| - 1]) + if InFlight(ws[|ws| - 1]) then 1 else 0
  }

  lemma {:induction false} CountUpdate(ws: seq<Worker>, i: nat, w: Worker)
    requires i < |ws|
    ensures CountInFlight(ws[i := w]) + (if InFlight(ws[i]) then 1 else 0) == CountInFlight(ws) + if InFlight(w) then 1 else 0
  {
    var t, u := ws[..|ws| - 1], ws[i := w];
    if i < |ws| - 1 {
      CountUpdate(t, i, w);
      assert u[..|u| - 1] == t[i := w];
    } else {
      assert u[..|u| - 1] == t;
    }
  }

  lemma {:induction false} CountZero(ws: seq<Worker>)
    requires CountInFlight(ws) == 0
    ensures forall i :: 0 <= i < |ws| ==> !InFlight(ws[i])
  {
    if ws != [] {
      CountZero(ws[..|ws| - 1]);
      assert forall i :: 0 <= i < |ws| - 1 ==> ws[i] == ws[..|ws| - 1][i];
    }
  }

  lemma {:induction false} CountPositive(ws: seq<Worker>) returns (i: nat)
    requires CountInFlight(ws) > 0
    ensures i < |ws| && InFlight(ws[i])
  {
    if InFlight(ws[|ws| - 1]) {
      i := |ws| - 1;
    } else {
      i := CountPositive(ws[..|ws| - 1]);
    }
  }

  lemma {:induction false} CountAwake(ws: seq<Worker>)
    ensures CountInFlight(Awake(ws)) == CountInFlight(ws)
  {
    if ws != [] {
      CountAwake(ws[..|ws| - 1]);
      assert Awake(ws)[..|ws| - 1] == Awake(ws[..|ws| - 1]);
    }
  }

  /** All sleeping workers woken. */
  function Awake(ws: seq<Worker>): (a: seq<Worker>)
    ensures |a| == |ws| && forall i :: 0 <= i < |ws| ==> a[i] == if ws[i] == Blocked then Ready else ws[i]
  {
    seq(|ws|, i requires 0 <= i < |ws| => if ws[i] == Blocked then Ready else ws[i])
  }

  class Pool {
    var function_: nat
    var opaque_: nat
    var numThreadsBusy: nat
    var queueIndex: int
    var queueEnd: int
    var shutdown: bool
    var workers: seq<Worker>
    var caller: Caller
    /** All ranges added so far, which only the statements here speak of; so do the three below. */
    var ranges: seq<Range>
    ghost var taker: map<Job, nat>
    ghost var started: map<Job, (nat, nat)>
    ghost var returned: set<Job>

    /** Up to where the indices of range r have been handed out. */
    ghost function HandedTo(r: nat): int
      requires r < |ranges|
      reads this`ranges, this`queueIndex
    {
      if r == |ranges| - 1 then queueIndex else ranges[r].end
    }

    /** The indices handed out are those below the mark, each to one worker. */
    ghost predicate HandedOnce()
      reads this`ranges, this`queueIndex, this`taker, this`workers, this`returned
    {
      && (forall j :: j in taker <==> j.range < |ranges| && ranges[j.range].first <= j.index < HandedTo(j.range))
      && (forall j :: j in taker ==> taker[j] < |workers|)
      && returned <= taker.Keys
      && (forall j :: j in taker && j !in returned ==> Unfinished(workers[taker[j]]) && workers[taker[j]].job == j)
    }

    /** A worker in flight has an index of the current range, and what it has read is that range's. */
    ghost predicate WorkerOk(i: nat, w: Worker)
      reads this`ranges, this`taker, this`started, this`returned
    {
      InFlight(w) ==>
        && w.job in taker && taker[w.job] == i && w.job.range == |ranges| - 1
        && (w.Returned? <==> w.job in returned)
        && (w.HasFunction? || w.Running? ==> w.f == ranges[w.job.range].function_)
        && (w.Running? ==> w.o == ranges[w.job.range].opaque_)
        && (w.Running? || w.Returned? <==> w.job in started)
    }

    /** The queue is that of the range added last. */
    ghost predicate Current()
      reads this`ranges, this`queueIndex, this`queueEnd, this`function_, this`opaque_
    {
      && (ranges == [] ==> queueIndex == 0 && queueEnd == 0)
      && (ranges != [] ==>
            var r := ranges[|ranges| - 1];
            function_ == r.function_ && opaque_ == r.opaque_ && queueEnd == r.end
            && r.first <= queueIndex && (queueIndex <= r.end || queueIndex == r.first))
    }

    /** Nobody sleeps who has been given cause to wake. */
    ghost predicate NoneForgotten()
      reads this`queueIndex, this`queueEnd, this`shutdown, this`workers, this`caller, this`numThreadsBusy
    {
      && (queueIndex < queueEnd || shutdown ==> forall i :: 0 <= i < |workers| ==> workers[i] != Blocked)
      && (caller == Asleep && !shutdown ==> numThreadsBusy > 0 || queueIndex < queueEnd)
      && (!shutdown ==> forall i :: 0 <= i < |workers| ==> workers[i] != Exited)
    }

    ghost predicate WorkersOk()
      reads this`workers, this`ranges, this`taker, this`started, this`returned
    {
      forall i {:trigger workers[i]} :: 0 <= i < |workers| ==> WorkerOk(i, workers[i])
    }

    /** Every call begun is one of the function and the argument its range was added with. */
    ghost predicate CallsAsAsked()
      reads this`ranges, this`taker, this`started, this`returned
    {
      && (forall j :: j in returned ==> j in started)
      && (forall j :: j in started ==> j in taker && j.range < |ranges| && started[j] == (ranges[j.range].function_, ranges[j.range].opaque_))
    }

    ghost predicate Valid()
      reads this
    {
      && HandedOnce() && Current() && NoneForgotten() && numThreadsBusy == CountInFlight(workers)
      && WorkersOk() && CallsAsAsked()
      && (caller == Idle ==> numThreadsBusy == 0 && queueIndex >= queueEnd)
    }

    /** A pool of n threads, none of which has done anything yet. */
    constructor (n: nat)
      ensures Valid() && caller == Idle && |workers| == n && !shutdown && ranges == []
    {
      function_, opaque_, numThreadsBusy, queueIndex, queueEnd, shutdown := 0, 0, 0, 0, 0, false;
      workers := seq(n, i => Ready);
      caller, ranges, taker, started, returned := Idle, [], map[], map[], {};
      new;
      NoneStarted(workers);
    }

    // ---- What workers do ----

    /**
     * The critical section of a worker: counting its last job done and signalling, if it had one; then going
     * to sleep, leaving, or popping an index.
     */
    method Section(i: nat)
      requires Valid() && i < |workers| && (workers[i] == Ready || workers[i].Returned?)
      modifies this
      ensures Valid() && ranges == old(ranges) && |workers| == |old(workers)| && shutdown == old(shutdown)
      ensures returned == old(returned) && started == old(started) && queueEnd == old(queueEnd)
      ensures caller == if old(caller) == Asleep && old(workers)[i].Returned? then Waiting else old(caller)
      ensures workers[i].Popped? ==> old(queueIndex < queueEnd) && workers[i].job.index == old(queueIndex) && queueIndex == old(queueIndex) + 1
      ensures !workers[i].Popped? ==> queueIndex == old(queueIndex) && (workers[i] == Blocked || (shutdown && workers[i] == Exited))
      ensures forall k :: 0 <= k < |workers| && k != i ==> workers[k] == old(workers[k])
    {
      hide *;
      if workers[i].Returned? {
        CountDone(i);
      }
      if queueIndex >= queueEnd && !shutdown {
        Put(i, Blocked);
      } else if shutdown {
        Put(i, Exited);
      } else {
        Pop(i);
      }
    }

    /** The job is done, and whoever waits is told. */
    method CountDone(i: nat)
      requires Valid() && i < |workers| && workers[i].Returned?
      modifies this`numThreadsBusy, this`workers, this`caller
      ensures Valid() && workers == old(workers)[i := Ready] && numThreadsBusy == old(numThreadsBusy) - 1
      ensures caller == if old(caller) == Asleep then Waiting else old(caller)
    {
      hide CallsAsAsked, Current;
      CountUpdate(workers, i, Ready);
      numThreadsBusy := numThreadsBusy - 1;
      workers := workers[i := Ready];
      if caller == Asleep {
        caller := Waiting;
      }
    }

    /** A worker that holds no index goes to sleep, wakes or leaves. */
    method Put(i: nat, w: Worker)
      requires Valid() && i < |workers| && (workers[i] == Ready || workers[i] == Blocked)
      requires if shutdown then w == Exited || w == Ready else w == Ready || (w == Blocked && queueIndex >= queueEnd)
      modifies this`workers
      ensures Valid() && workers == old(workers)[i := w]
    {
      CountUpdate(workers, i, w);
      workers := workers[i := w];
    }

    /** Takes the next index. */
    method Pop(i: nat)
      requires Valid() && i < |workers| && workers[i] == Ready && queueIndex < queueEnd && !shutdown
      modifies this`queueIndex, this`numThreadsBusy, this`workers, this`taker
      ensures Valid() && queueIndex == old(queueIndex) + 1
      ensures ranges != [] && workers == old(workers)[i := Popped(Job(|ranges| - 1, old(queueIndex)))]
      ensures workers[i].job !in old(taker) && taker == old(taker)[workers[i].job := i]
    {
      SomeRange();
      hide Valid, HandedOnce, Current, NoneForgotten, WorkersOk, CallsAsAsked, InFlight, CountInFlight;
      var n := queueIndex;
      queueIndex := queueIndex + 1;
      numThreadsBusy := numThreadsBusy + 1;
      var job := Job(|ranges| - 1, n);
      CountUpdate(workers, i, Popped(job));
      workers := workers[i := Popped(job)];
      taker := taker[job := i];
      PopKeeps(i);
    }

    lemma SomeRange()
      requires Valid() && queueIndex < queueEnd
      ensures ranges != []
    {
    }

    /** What popping an index does to the state. */
    twostate predicate PoppedBy(i: nat)
      reads this
    {
      ranges != [] &&
      var job := Job(|ranges| - 1, old(queueIndex));
      && old(Valid()) && i < |old(workers)| && old(workers)[i] == Ready && old(queueIndex < queueEnd && !shutdown)
      && queueIndex == old(queueIndex) + 1 && numThreadsBusy == old(numThreadsBusy) + 1
      && workers == old(workers)[i := Popped(job)] && taker == old(taker)[job := i]
      && unchanged(this`ranges, this`started, this`returned, this`queueEnd, this`shutdown, this`function_, this`opaque_, this`caller)
    }

    twostate lemma PopKeeps(i: nat)
      requires PoppedBy(i)
      ensures Valid() && workers[i].job !in old(taker)
    {
      hide HandedOnce, Current, NoneForgotten, WorkersOk, CallsAsAsked, InFlight, CountInFlight;
      PopHanded(i);
      PopWorkers(i);
      PopCalls(i);
      PopRest(i);
    }

    twostate lemma PopHanded(i: nat)
      requires PoppedBy(i)
      ensures HandedOnce() && workers[i].job !in old(taker)
    {
    }

    twostate lemma PopWorkers(i: nat)
      requires PoppedBy(i)
      ensures WorkersOk()
    {
    }

    twostate lemma PopCalls(i: nat)
      requires PoppedBy(i)
      ensures CallsAsAsked()
    {
    }

    twostate lemma PopRest(i: nat)
      requires PoppedBy(i)
      ensures Current() && NoneForgotten() && numThreadsBusy == CountInFlight(workers)
    {
      CountUpdate(old(workers), i, workers[i]);
    }

    /** Outside the lock: the function is read. */
    method ReadFunction(i: nat)
      requires Valid() && i < |workers| && workers[i].Popped?
      modifies this`workers
      ensures Valid() && workers == old(workers)[i := HasFunction(old(workers)[i].job, function_)]
    {
      CountUpdate(workers, i, HasFunction(workers[i].job, function_));
      workers := workers[i := HasFunction(workers[i].job, function_)];
    }

    /**
     * Outside the lock: the argument is read, and the call begins. It is the call the range asked for, and the
     * first for this index.
     */
    method StartCall(i: nat)
      requires Valid() && i < |workers| && workers[i].HasFunction?
      modifies this`workers, this`started
      ensures Valid() && workers == old(workers)[i := Running(old(workers)[i].job, old(workers)[i].f, opaque_)]
      ensures workers[i].job.range < |ranges| && workers[i].job !in old(started)
      ensures var r := ranges[workers[i].job.range]; workers[i].f == r.function_ && workers[i].o == r.opaque_
      ensures started == old(started)[workers[i].job := (workers[i].f, workers[i].o)]
    {
      var w := workers[i];
      CountUpdate(workers, i, Running(w.job, w.f, opaque_));
      workers := workers[i := Running(w.job, w.f, opaque_)];
      started := started[w.job := (w.f, opaque_)];
    }

    /** The call returns. */
    method Return(i: nat)
      requires Valid() && i < |workers| && workers[i].Running?
      modifies this`workers, this`returned
      ensures Valid() && workers == old(workers)[i := Returned(old(workers)[i].job)]
      ensures returned == old(returned) + {old(workers)[i].job}
    {
      var job := workers[i].job;
      CountUpdate(workers, i, Returned(job));
      workers := workers[i := Returned(job)];
      returned := returned + {job};
    }

    // ---- What the caller does ----

    /** A new range, after the last one has been waited for. */
    method AddRange(f: nat, o: nat, first: int, end: int)
      requires Valid() && caller == Idle && !shutdown
      modifies this
      ensures Valid() && ranges == old(ranges) + [Range(f, o, first, end)] && caller == Waiting && !shutdown
      ensures |workers| == |old(workers)| && taker == old(taker) && started == old(started) && returned == old(returned)
    {
      hide Valid, HandedOnce, Current, NoneForgotten, WorkersOk, CallsAsAsked, InFlight, CountInFlight, Awake;
      function_ := f;
      opaque_ := o;
      queueIndex := first;
      queueEnd := end;
      workers := Awake(workers);
      ranges := ranges + [Range(f, o, first, end)];
      caller := Waiting;
      AddKeeps();
    }

    /** What adding a range does to the state. */
    twostate predicate AddedRange()
      reads this
    {
      && old(Valid()) && old(caller == Idle && !shutdown)
      && workers == Awake(old(workers)) && caller == Waiting
      && ranges == old(ranges) + [Range(function_, opaque_, queueIndex, queueEnd)]
      && unchanged(this`started, this`returned, this`taker, this`shutdown, this`numThreadsBusy)
    }

    twostate lemma AddKeeps()
      requires AddedRange()
      ensures Valid()
    {
      hide HandedOnce, Current, NoneForgotten, WorkersOk, CallsAsAsked, InFlight, CountInFlight, Awake;
      AddHanded();
      AddCalls();
      AddRest();
    }

    twostate lemma AddHanded()
      requires AddedRange()
      ensures HandedOnce()
    {
      CountZero(old(workers));
    }

    twostate lemma AddCalls()
      requires AddedRange()
      ensures CallsAsAsked()
    {
    }

    twostate lemma AddRest()
      requires AddedRange()
      ensures Current() && NoneForgotten() && WorkersOk() && numThreadsBusy == CountInFlight(workers)
    {
      CountZero(old(workers));
      CountAwake(old(workers));
    }

    /** The wait's condition, checked under the lock: sleep on, or leave. */
    method WaitCheck() returns (leaves: bool)
      requires Valid() && caller == Waiting
      modifies this`caller
      ensures Valid() && leaves == (shutdown || (numThreadsBusy == 0 && queueIndex >= queueEnd))
      ensures caller == if !leaves then Asleep else if shutdown then Stopped else Idle
      ensures leaves && !shutdown ==> AllReturned()
    {
      if (numThreadsBusy != 0 || queueIndex < queueEnd) && !shutdown {
        caller := Asleep;
        leaves := false;
      } else {
        leaves := true;
        if !shutdown {
          CountZero(workers);
          caller := Idle;
        } else {
          caller := Stopped;
        }
      }
    }

    /** Every index of every range has been handed to a worker, and its call, the one asked for, has returned. */
    ghost predicate AllReturned()
      reads this
    {
      forall r, n :: 0 <= r < |ranges| && ranges[r].first <= n < ranges[r].end ==>
        Job(r, n) in taker && Job(r, n) in returned && Job(r, n) in started
        && started[Job(r, n)] == (ranges[r].function_, ranges[r].opaque_)
    }

    /** Shutting down wakes all workers. */
    method Shutdown()
      requires Valid()
      modifies this`shutdown, this`workers
      ensures Valid() && shutdown && workers == Awake(old(workers))
    {
      CountAwake(workers);
      shutdown := true;
      workers := Awake(workers);
    }

    /** While the caller sleeps and the pool is not shut down, there is a worker that can go on. */
    lemma SomeoneGoesOn() returns (i: nat)
      requires Valid() && caller == Asleep && !shutdown && workers != []
      ensures i < |workers| && GoesOn(workers[i])
    {
      if numThreadsBusy > 0 {
        i := CountPositive(workers);
      } else {
        i := 0;
      }
    }

    /** Condition variables may also wake for no reason. */
    method WakeWorker(i: nat)
      requires Valid() && i < |workers| && workers[i] == Blocked
      modifies this`workers
      ensures Valid() && workers == old(workers)[i := Ready]
    {
      Put(i, Ready);
    }

    method WakeCaller()
      requires Valid() && caller == Asleep
      modifies this`caller
      ensures Valid() && caller == Waiting
    {
      caller := Waiting;
    }

    // ---- Runs ----

    /** A bound on the steps the workers can still take by themselves. */
    ghost function Remaining(): nat
      reads this`workers, this`queueIndex, this`queueEnd
    {
      StepsLeft(workers) + 6 * if queueIndex < queueEnd then queueEnd - queueIndex else 0
    }

    /** The next step of worker i, whatever it is. */
    method Advance(i: nat)
      requires Valid() && i < |workers| && GoesOn(workers[i])
      modifies this
      ensures Valid() && Remaining() < old(Remaining())
      ensures ranges == old(ranges) && |workers| == |old(workers)| && shutdown == old(shutdown)
      ensures caller == old(caller) || (old(caller) == Asleep && caller == Waiting)
    {
      hide Valid;
      if workers[i].Popped? {
        StepsUpdate(workers, i, HasFunction(workers[i].job, function_));
        ReadFunction(i);
      } else if workers[i].HasFunction? {
        StepsUpdate(workers, i, Running(workers[i].job, workers[i].f, opaque_));
        StartCall(i);
      } else if workers[i].Running? {
        StepsUpdate(workers, i, Returned(workers[i].job));
        Return(i);
      } else {
        ghost var was := workers;
        Section(i);
        StepsUpdate(was, i, workers[i]);
        assert workers == was[i := workers[i]];
      }
    }

    /** A worker or the caller wakes for no reason, if one sleeps. */
    method WakeSomeone() returns (woken: bool)
      requires Valid()
      modifies this`workers, this`caller
      ensures Valid() && |workers| == |old(workers)|
      ensures caller == old(caller) || (old(caller) == Asleep && caller == Waiting)
      ensures woken || (workers == old(workers) && caller == old(caller))
    {
      hide Valid;
      var ofWorkers: bool := *;
      if ofWorkers && exists i :: 0 <= i < |workers| && workers[i] == Blocked {
        var i: nat :| i < |workers| && workers[i] == Blocked;
        WakeWorker(i);
        woken := true;
      } else {
        woken := caller == Asleep;
        if woken { WakeCaller(); }
      }
    }

    /**
     * The locked wait of the caller, the steps of the workers and its own coming in any order, with so many
     * wake-ups for no reason among them: it ends, and then each index of each range has been handed to one
     * worker, and its call, of that range's function, has returned.
     */
    method WaitAll(spurious: nat)
      requires Valid() && caller == Waiting && !shutdown && workers != []
      modifies this
      ensures Valid() && caller == Idle && !shutdown && ranges == old(ranges) && AllReturned()
      ensures |workers| == |old(workers)|
    {
      hide Valid, AllReturned;
      var left := spurious;
      var leaves := WaitCheck();
      while !leaves
        invariant Valid() && !shutdown && ranges == old(ranges) && |workers| == |old(workers)|
        invariant if leaves then caller == Idle && AllReturned() else caller == Waiting || caller == Asleep
        decreases !leaves, left, Remaining(), caller == Waiting
      {
        var looks: bool, wakes: bool := *, *;
        var woken := false;
        if wakes && left > 0 {
          woken := WakeSomeone();
        }
        if woken {
          left := left - 1;
        } else if caller == Waiting && (looks || forall i :: 0 <= i < |workers| ==> !GoesOn(workers[i])) {
          leaves := WaitCheck();
        } else {
          if caller == Asleep {
            ghost var w := SomeoneGoesOn();
          }
          var i: nat :| i < |workers| && GoesOn(workers[i]);
          Advance(i);
        }
      }
    }

    /** No two workers ever have the same index. */
    lemma NoIndexTwice(i: nat, k: nat)
      requires Valid() && i < |workers| && k < |workers| && i != k && InFlight(workers[i]) && InFlight(workers[k])
      ensures workers[i].job != workers[k].job
    {
      assert WorkerOk(i, workers[i]) && WorkerOk(k, workers[k]);
    }
  }

  lemma {:induction false} NoneStarted(ws: seq<Worker>)
    requires forall i :: 0 <= i < |ws| ==> ws[i] == Ready
    ensures CountInFlight(ws) == 0
  {
    if ws != [] {
      NoneStarted(ws[..|ws| - 1]);
    }
  }
}
