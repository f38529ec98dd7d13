/** `fcp_timers.FCPTimers`: the table of running final-comment-period timers,
    the scheduler jobs that end them, and the file that persists them. */
module FcpTimers {
  import opened Wrappers

  /** A job held by the scheduler: its identifier, the proposal number it is
      called with, and the time it fires, in whole seconds since the epoch. */
  datatype Job = Job(id: nat, num: int, runTime: int)

  /** What cancelling a timer does: it cancels, or it raises `ProposalNotInFCP`. */
  datatype CancelOutcome = Cancelled | ProposalNotInFcp

  /** The `{proposal number: timestamp}` object the timers are saved as. */
  function DiskImage(timers: map<int, Job>): (image: map<int, int>)
    ensures image.Keys == timers.Keys
    ensures forall n :: n in timers ==> image[n] == timers[n].runTime
  {
    map n | n in timers :: timers[n].runTime
  }

  /** Overwriting a timer overwrites its entry in the saved object and nothing else. */
  lemma DiskImageOfOverwrite(timers: map<int, Job>, n: int, job: Job)
    ensures DiskImage(timers[n := job]) == DiskImage(timers)[n := job.runTime]
    ensures forall m :: m in timers && m != n ==> DiskImage(timers[n := job])[m] == DiskImage(timers)[m]
  {
    assert DiskImage(timers[n := job]).Keys == DiskImage(timers)[n := job.runTime].Keys;
  }

  /** Removing a timer removes exactly its entry from the saved object. */
  lemma DiskImageOfRemoval(timers: map<int, Job>, n: int)
    ensures DiskImage(timers - {n}) == DiskImage(timers) - {n}
    ensures n !in DiskImage(timers - {n})
  {
    assert DiskImage(timers - {n}).Keys == (DiskImage(timers) - {n}).Keys;
  }

  /** Some element of a non-empty set: the next key of a dictionary iteration. */
  method Pick<T>(s: set<T>) returns (x: T)
    requires s != {}
    ensures x in s
  {
    x :| x in s;
  }

  class FcpTimers {
    /** `self.timers`: proposal number to its scheduler job. */
    var timers: map<int, Job>
    /** The contents of the timer file. */
    ghost var file: map<int, int>
    /** The jobs the scheduler still holds. */
    var scheduled: set<Job>
    /** The identifier the next scheduled job gets. */
    var nextId: nat
    /** The proposal numbers `callback_func` was called with, in order. */
    var callbacks: seq<int>
    /** The file contents at each call of `callback_func`. */
    ghost var filesAtCallback: seq<map<int, int>>

    /** The file mirrors the table, every timer is a job for its own
        proposal, and job identifiers are never reused. */
    ghost predicate Consistent()
      reads this
    {
      && file == DiskImage(timers)
      && (forall n :: n in timers ==> timers[n].num == n && timers[n].id < nextId)
      && (forall j :: j in scheduled ==> j.id < nextId)
    }

    /** Every timer but the one for `except` is still held by the scheduler. */
    ghost predicate ArmedExcept(except: Option<int>)
      reads this
    {
      forall n :: n in timers && Some(n) != except ==> timers[n] in scheduled
    }

    /** The state between operations: consistent, and every timer armed. */
    ghost predicate Valid()
      reads this
    {
      Consistent() && ArmedExcept(None)
    }

    /** `__init__`: with no file (`existing == None`), start empty and write
        `{}`; otherwise start one timer per stored entry through `NewTimer`. */
    constructor (existing: Option<map<int, int>>)
      ensures Valid()
      ensures existing.None? ==> timers == map[] && file == map[]
      ensures existing.Some? ==> timers.Keys == existing.value.Keys && file == existing.value
      ensures existing.Some? ==> forall n :: n in timers ==> timers[n].runTime == existing.value[n]
      ensures scheduled == set n | n in timers :: timers[n]
      ensures callbacks == [] && filesAtCallback == []
    {
      timers := map[];
      scheduled := {};
      nextId := 0;
      callbacks := [];
      filesAtCallback := [];
      file := map[];
      new;
      if existing.Some? {
        var stored := existing.value;
        var rest := stored.Keys;
        while rest != {}
          invariant Valid()
          invariant rest <= stored.Keys
          invariant timers.Keys == stored.Keys - rest
          invariant forall n :: n in timers ==> timers[n].runTime == stored[n]
          invariant callbacks == [] && filesAtCallback == []
          invariant scheduled == set n | n in timers :: timers[n]
          decreases rest
        {
          var n := Pick(rest);
          NewTimer(stored[n], n);
          rest := rest - {n};
        }
        assert file.Keys == stored.Keys;
        assert forall n :: n in file ==> file[n] == stored[n];
      }
    }

    /** `new_timer`: schedule a fresh job for `num` at `runTime`, record it
        (replacing any earlier one, whose job stays scheduled) and save. */
    method NewTimer(runTime: int, num: int)
      requires Valid()
      modifies this`timers, this`file, this`scheduled, this`nextId
      ensures Valid()
      ensures nextId == old(nextId) + 1
      ensures timers == old(timers)[num := Job(old(nextId), num, runTime)]
      ensures scheduled == old(scheduled) + {Job(old(nextId), num, runTime)}
      ensures file == old(file)[num := runTime]
    {
      var job := Job(nextId, num, runTime);
      nextId := nextId + 1;
      scheduled := scheduled + {job};
      timers := timers[num := job];
      SaveTimersToDisk();
      DiskImageOfOverwrite(old(timers), num, job);
    }

    /** `cancel_timer_for_proposal_num`: raise when `num` has no timer;
        otherwise take its job off the scheduler, drop it and save. */
    method CancelTimerForProposalNum(num: int) returns (outcome: CancelOutcome)
      requires Consistent() && ArmedExcept(Some(num))
      modifies this`timers, this`file, this`scheduled
      ensures Consistent() && ArmedExcept(Some(num))
      ensures outcome == Cancelled ==> Valid()
      ensures outcome == ProposalNotInFcp <==> num !in old(timers)
      ensures outcome == ProposalNotInFcp ==>
        timers == old(timers) && file == old(file) && scheduled == old(scheduled)
      ensures outcome == Cancelled ==>
        && timers == old(timers) - {num}
        && scheduled == old(scheduled) - {old(timers)[num]}
        && file == old(file) - {num}
    {
      if num !in timers {
        return ProposalNotInFcp;
      }
      var job := timers[num];
      if job in scheduled {
        scheduled := scheduled - {job};
      }
      timers := timers - {num};
      SaveTimersToDisk();
      DiskImageOfRemoval(old(timers), num);
      outcome := Cancelled;
    }

    /** `_save_timers_to_disk`: build the number-to-timestamp object from the
        table and overwrite the file with it. */
    method SaveTimersToDisk()
      modifies this`file
      ensures file == DiskImage(timers)
    {
      var image: map<int, int> := map[];
      var rest := timers.Keys;
      while rest != {}
        invariant rest <= timers.Keys
        invariant image.Keys == timers.Keys - rest
        invariant forall n :: n in image ==> image[n] == timers[n].runTime
        decreases rest
      {
        var n := Pick(rest);
        image := image[n := timers[n].runTime];
        rest := rest - {n};
      }
      assert rest == {};
      assert image.Keys == DiskImage(timers).Keys;
      assert forall n :: n in image ==> image[n] == DiskImage(timers)[n];
      file := image;
    }

    /** `_run_callback`: cancel the timer of `num`, then call `callback_func`
        with `num`. When the cancel raises, the callback is not called. */
    method RunCallback(num: int) returns (outcome: CancelOutcome)
      requires Consistent() && ArmedExcept(Some(num))
      modifies this`timers, this`file, this`scheduled, this`callbacks, this`filesAtCallback
      ensures Consistent() && ArmedExcept(Some(num))
      ensures outcome == Cancelled ==> Valid()
      ensures outcome == ProposalNotInFcp <==> num !in old(timers)
      ensures outcome == ProposalNotInFcp ==>
        && timers == old(timers) && file == old(file) && scheduled == old(scheduled)
        && callbacks == old(callbacks) && filesAtCallback == old(filesAtCallback)
      ensures outcome == Cancelled ==>
        && timers == old(timers) - {num}
        && scheduled == old(scheduled) - {old(timers)[num]}
        && file == old(file) - {num}
        && callbacks == old(callbacks) + [num]
        && filesAtCallback == old(filesAtCallback) + [file]
    {
      outcome := CancelTimerForProposalNum(num);
      if outcome == Cancelled {
        callbacks := callbacks + [num];
        filesAtCallback := filesAtCallback + [file];
      }
    }

    /** The scheduler firing `job`: the job leaves the scheduler and runs
        `_run_callback` with its proposal number. A job that an overwrite left
        behind fires too, and then cancels whatever timer its number has. */
    method Fire(job: Job) returns (outcome: CancelOutcome)
      requires Valid() && job in scheduled
      modifies this`timers, this`file, this`scheduled, this`callbacks, this`filesAtCallback
      ensures Valid()
      ensures outcome == ProposalNotInFcp <==> job.num !in old(timers)
      ensures outcome == Cancelled ==>
        && timers == old(timers) - {job.num}
        && scheduled == old(scheduled) - {job, old(timers)[job.num]}
        && file == old(file) - {job.num}
        && callbacks == old(callbacks) + [job.num]
        && filesAtCallback == old(filesAtCallback) + [file]
        && job.num !in file
      ensures outcome == ProposalNotInFcp ==>
        && timers == old(timers) && file == old(file) && scheduled == old(scheduled) - {job}
        && callbacks == old(callbacks) && filesAtCallback == old(filesAtCallback)
    {
      scheduled := scheduled - {job};
      outcome := RunCallback(job.num);
    }
  }

  /** An overwritten timer's job is still scheduled; when it fires it ends the
      timer that replaced it, and the callback runs at the earlier time. */
  method OverwrittenJobEndsCurrentTimer() returns (timers: FcpTimers, outcome: CancelOutcome)
    ensures outcome == Cancelled
    ensures timers.timers == map[] && timers.file == map[]
    ensures timers.callbacks == [7]
    ensures timers.scheduled == {}
  {
    timers := new FcpTimers(None);
    var id := timers.nextId;
    timers.NewTimer(100, 7);
    var first := Job(id, 7, 100);
    timers.NewTimer(200, 7);
    assert first in timers.scheduled && timers.timers[7] == Job(id + 1, 7, 200);
    outcome := timers.Fire(first);
  }
}
