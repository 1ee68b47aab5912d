/** The scheduler's job store as main.py uses it: jobs kept under the id
    `"reminder_" + class_id`, installed with `add_job(..., replace_existing=True)`,
    removed with `remove_job`, and counted with `len(get_jobs())`. */
module JobStore {
  import opened Trigger

  /** A job: `send_class_reminder` called with `args=[classId]` whenever the
      cron trigger fires. The function is always the same, so it is not stored. */
  datatype Job = Job(classId: string, trigger: CronSpec)

  const KeyPrefix := "reminder_"

  /** The job id `f"reminder_{class_id}"`. */
  function JobKey(classId: string): (key: string)
    ensures |key| == |KeyPrefix| + |classId|
    ensures key[..|KeyPrefix|] == KeyPrefix && key[|KeyPrefix|..] == classId
  {
    KeyPrefix + classId
  }

  /** Different classes never share a job id. */
  lemma JobKeyInjective(a: string, b: string)
    ensures JobKey(a) == JobKey(b) <==> a == b
  {
    if JobKey(a) == JobKey(b) {
      assert a == JobKey(a)[|KeyPrefix|..];
    }
  }

  /** The class ids of the jobs that fire at this weekday, hour and minute. */
  function DueClassIds(jobs: map<string, Job>, dayOfWeek: int, hour: int, minute: int): (due: set<string>)
    ensures forall id :: id in due <==>
              exists k :: k in jobs && jobs[k].classId == id && Fires(jobs[k].trigger, dayOfWeek, hour, minute)
  {
    set k | k in jobs && Fires(jobs[k].trigger, dayOfWeek, hour, minute) :: jobs[k].classId
  }

  /** The job store of the `AsyncIOScheduler`. */
  class Scheduler {
    var jobs: map<string, Job>

    constructor ()
      ensures jobs == map[]
    {
      jobs := map[];
    }

    /** `add_job(..., id=key, replace_existing=True)`: install, or replace
        the job already stored under the same id. */
    method AddJob(key: string, job: Job)
      modifies this
      ensures jobs == old(jobs)[key := job]
    {
      jobs := jobs[key := job];
    }

    /** `remove_job(key)`; `found` is false where the scheduler raises
        `JobLookupError`, and then nothing changes. */
    method RemoveJob(key: string) returns (found: bool)
      modifies this
      ensures found <==> key in old(jobs)
      ensures jobs == old(jobs) - {key}
    {
      found := key in jobs;
      jobs := jobs - {key};
    }

    /** `len(get_jobs())`. */
    function JobCount(): (n: nat)
      reads this
      ensures n == 0 <==> jobs == map[]
      ensures forall key :: key in jobs ==> n == |jobs - {key}| + 1
    {
      |jobs|
    }
  }

  /** Installing twice under one id leaves one entry, holding the second job. */
  lemma AddJobTwice(jobs: map<string, Job>, key: string, first: Job, second: Job)
    ensures jobs[key := first][key := second] == jobs[key := second]
    ensures |jobs[key := first][key := second]| == |jobs| + (if key in jobs then 0 else 1)
  {
  }

  /** Removing an id that is not stored changes nothing; removing one that is
      takes away that entry only. */
  lemma RemoveJobEffect(jobs: map<string, Job>, key: string)
    ensures key !in jobs ==> jobs - {key} == jobs
    ensures key in jobs ==> |jobs - {key}| == |jobs| - 1
    ensures forall k :: k in jobs && k != key ==> k in jobs - {key} && (jobs - {key})[k] == jobs[k]
  {
  }
}
