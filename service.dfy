/** The state and routes of main.py: the stores `parents_db`, `classes_db`
    and `messages_db`, the scheduler's job store, the reminder dispatcher
    (`send_class_reminder`, `send_whatsapp_message`), the scheduling step
    (`schedule_reminder`), and the routes that keep the class store and the
    job store in step. */
module Service {
  import opened Common
  import opened Text
  import opened Trigger
  import opened JobStore
  import opened Records
  import opened Replies

  /** `schedule_reminder`'s decision for a class record. */
  function PlanFor(c: TutoringClass): Plan {
    PlanReminder(c.dayOfWeek, c.classTime, c.reminderMinutes)
  }

  /** The job `schedule_reminder(id, c)` installs, if it installs one. */
  function ExpectedJob(id: string, c: TutoringClass): Option<Job> {
    match PlanFor(c)
    case Install(spec) => Some(Job(id, spec))
    case _ => None
  }

  /** The job stored under `key`, if any. */
  function JobAt(jobs: map<string, Job>, key: string): Option<Job> {
    if key in jobs then Some(jobs[key]) else None
  }

  /** The job store after `schedule_reminder(id, c)`. */
  function Scheduled(jobs: map<string, Job>, id: string, c: TutoringClass): map<string, Job> {
    match ExpectedJob(id, c)
    case Some(job) => jobs[JobKey(id) := job]
    case None => jobs
  }

  /** The class ids that hold a job: those whose weekday, time and lead pass
      every check of `schedule_reminder`. */
  function ScheduledIds(classes: map<string, TutoringClass>): set<string> {
    set id | id in classes && ExpectedJob(id, classes[id]).Some?
  }

  /** The job store is exactly what `schedule_reminder` made of the stored
      classes: each class has the job its own fields give (none when a field
      is invalid), and every job belongs to a stored class under that class's
      key. */
  ghost predicate InSync(classes: map<string, TutoringClass>, jobs: map<string, Job>) {
    && (forall id :: id in classes ==> JobAt(jobs, JobKey(id)) == ExpectedJob(id, classes[id]))
    && (forall k :: k in jobs ==> jobs[k].classId in classes && k == JobKey(jobs[k].classId))
  }

  /** `order` lists the keys of `m` once each: the insertion order of a dict. */
  predicate OrderOf<V>(order: seq<string>, m: map<string, V>) {
    && Distinct(order)
    && (forall i :: 0 <= i < |order| ==> order[i] in m)
    && (forall k :: k in m ==> k in order)
  }

  /** `order` without `key`, the others in their order: `del d[key]`. */
  function Without(order: seq<string>, key: string): seq<string> {
    Filter(order, (k: string) => k != key)
  }

  /** Adding a fresh key at the end keeps the insertion order. */
  lemma OrderAfterInsert<V>(order: seq<string>, m: map<string, V>, key: string, v: V)
    requires OrderOf(order, m) && key !in m
    ensures OrderOf(order + [key], m[key := v])
  {
    var o := order + [key];
    forall i, j | 0 <= i < j < |o| ensures o[i] != o[j] {
      if j == |order| {
        assert o[i] == order[i] && order[i] in m;
      } else {
        assert o[i] == order[i] && o[j] == order[j];
      }
    }
    forall k | k in m[key := v] ensures k in o {
      if k != key {
        assert k in order;
        var i :| 0 <= i < |order| && order[i] == k;
        assert o[i] == k;
      } else {
        assert o[|order|] == key;
      }
    }
  }

  /** Deleting a key keeps the insertion order of the others. */
  lemma OrderAfterRemove<V>(order: seq<string>, m: map<string, V>, key: string)
    requires OrderOf(order, m)
    ensures OrderOf(Without(order, key), m - {key})
  {
    var o := Without(order, key);
    FilterDistinct(order, (k: string) => k != key);
    forall i | 0 <= i < |o| ensures o[i] in m - {key} {
      assert o[i] in o;
      assert o[i] in order && o[i] != key;
      var j :| 0 <= j < |order| && order[j] == o[i];
    }
  }

  /** A class added under a fresh id and scheduled keeps the stores in step. */
  lemma SyncAfterCreate(classes: map<string, TutoringClass>, jobs: map<string, Job>, id: string, c: TutoringClass)
    requires InSync(classes, jobs) && id !in classes
    ensures InSync(classes[id := c], Scheduled(jobs, id, c))
  {
    forall k | k in jobs ensures k != JobKey(id) {
      JobKeyInjective(jobs[k].classId, id);
    }
    var after, out := classes[id := c], Scheduled(jobs, id, c);
    forall other | other in after
      ensures JobAt(out, JobKey(other)) == ExpectedJob(other, after[other])
    {
      ScheduledAt(jobs, id, c, JobKey(other));
      if other != id {
        JobKeyInjective(other, id);
      }
    }
    forall k | k in out ensures out[k].classId in after && k == JobKey(out[k].classId) {
      ScheduledAt(jobs, id, c, k);
    }
  }

  /** Removing a class's job, replacing its record and scheduling the new
      record keeps the stores in step. */
  lemma SyncAfterUpdate(classes: map<string, TutoringClass>, jobs: map<string, Job>, id: string, c: TutoringClass)
    requires InSync(classes, jobs) && id in classes
    ensures InSync(classes[id := c], Scheduled(jobs - {JobKey(id)}, id, c))
  {
    var rest := jobs - {JobKey(id)};
    var after, out := classes[id := c], Scheduled(rest, id, c);
    forall other | other in after
      ensures JobAt(out, JobKey(other)) == ExpectedJob(other, after[other])
    {
      ScheduledAt(rest, id, c, JobKey(other));
      if other != id {
        JobKeyInjective(other, id);
        assert JobAt(out, JobKey(other)) == JobAt(jobs, JobKey(other));
      }
    }
    forall k | k in out ensures out[k].classId in after && k == JobKey(out[k].classId) {
      ScheduledAt(rest, id, c, k);
    }
  }

  /** What the job store holds under `key` after `schedule_reminder(id, c)`. */
  lemma ScheduledAt(jobs: map<string, Job>, id: string, c: TutoringClass, key: string)
    requires JobKey(id) !in jobs
    ensures JobAt(Scheduled(jobs, id, c), key) == if key == JobKey(id) then ExpectedJob(id, c) else JobAt(jobs, key)
    ensures key in Scheduled(jobs, id, c) ==>
              (key == JobKey(id) && Scheduled(jobs, id, c)[key].classId == id) || (key != JobKey(id) && key in jobs && Scheduled(jobs, id, c)[key] == jobs[key])
  {
  }

  /** Removing a class's job and its record keeps the stores in step. */
  lemma SyncAfterDelete(classes: map<string, TutoringClass>, jobs: map<string, Job>, id: string)
    requires InSync(classes, jobs) && id in classes
    ensures InSync(classes - {id}, jobs - {JobKey(id)})
  {
    var after, out := classes - {id}, jobs - {JobKey(id)};
    forall other | other in after
      ensures JobAt(out, JobKey(other)) == ExpectedJob(other, after[other])
    {
      JobKeyInjective(other, id);
      assert JobAt(out, JobKey(other)) == JobAt(jobs, JobKey(other));
    }
    forall k | k in out ensures out[k].classId in after && k == JobKey(out[k].classId) {
      assert out[k] == jobs[k];
    }
  }

  /** A class that is not stored has no job, so it is never due. */
  lemma UnstoredNeverDue(classes: map<string, TutoringClass>, jobs: map<string, Job>, id: string,
                         dayOfWeek: int, hour: int, minute: int)
    requires InSync(classes, jobs) && id !in classes
    ensures id !in DueClassIds(jobs, dayOfWeek, hour, minute)
  {
  }

  /** When the stores are in step, a class is due at a minute of the week
      exactly when it is stored and the trigger its own fields give fires
      then. */
  lemma DueExactly(classes: map<string, TutoringClass>, jobs: map<string, Job>,
                   dayOfWeek: int, hour: int, minute: int)
    requires InSync(classes, jobs)
    ensures forall id :: id in DueClassIds(jobs, dayOfWeek, hour, minute)
                         <==> id in classes && ExpectedJob(id, classes[id]).Some?
                              && Fires(ExpectedJob(id, classes[id]).value.trigger, dayOfWeek, hour, minute)
  {
    var due := DueClassIds(jobs, dayOfWeek, hour, minute);
    forall id | id in due
      ensures id in classes && ExpectedJob(id, classes[id]).Some?
              && Fires(ExpectedJob(id, classes[id]).value.trigger, dayOfWeek, hour, minute)
    {
      var k :| k in jobs && Fires(jobs[k].trigger, dayOfWeek, hour, minute) && jobs[k].classId == id;
      assert k == JobKey(id);
      assert JobAt(jobs, JobKey(id)) == ExpectedJob(id, classes[id]);
    }
    forall id | id in classes && ExpectedJob(id, classes[id]).Some?
                && Fires(ExpectedJob(id, classes[id]).value.trigger, dayOfWeek, hour, minute)
      ensures id in due
    {
      assert JobAt(jobs, JobKey(id)) == ExpectedJob(id, classes[id]);
      assert jobs[JobKey(id)].classId == id;
    }
  }

  /** The job keys of a set of class ids are as many as the ids. */
  lemma {:induction false} JobKeysCount(ids: set<string>)
    ensures |set id | id in ids :: JobKey(id)| == |ids|
  {
    if ids != {} {
      var x :| x in ids;
      var rest := ids - {x};
      JobKeysCount(rest);
      var keys := set id | id in ids :: JobKey(id);
      var restKeys := set id | id in rest :: JobKey(id);
      assert keys == restKeys + {JobKey(x)};
      assert JobKey(x) !in restKeys by {
        forall id | id in rest ensures JobKey(id) != JobKey(x) {
          JobKeyInjective(id, x);
        }
      }
    }
  }

  /** When the stores are in step, the job count equals the number of
      classes whose schedule fields are valid, and so never exceeds the
      number of classes. */
  lemma SyncJobCount(classes: map<string, TutoringClass>, jobs: map<string, Job>)
    requires InSync(classes, jobs)
    ensures |jobs| == |ScheduledIds(classes)| <= |classes|
  {
    var ids := ScheduledIds(classes);
    var keys := set id | id in ids :: JobKey(id);
    forall k | k in jobs ensures k in keys {
      var id := jobs[k].classId;
      assert JobAt(jobs, JobKey(id)) == ExpectedJob(id, classes[id]);
    }
    forall k | k in keys ensures k in jobs {
      var id :| id in ids && k == JobKey(id);
      assert JobAt(jobs, JobKey(id)) == ExpectedJob(id, classes[id]);
    }
    assert jobs.Keys == keys;
    JobKeysCount(ids);
    assert ids <= classes.Keys;
    SubsetCount(ids, classes.Keys);
  }

  lemma {:induction false} SubsetCount(a: set<string>, b: set<string>)
    requires a <= b
    ensures |a| <= |b|
  {
    if a != {} {
      var x :| x in a;
      SubsetCount(a - {x}, b - {x});
    }
  }

  /** The record `create_class` stores: the request with the new id and the
      creation time filled in. */
  function NewRecord(c: TutoringClass, id: string, now: int): TutoringClass {
    c.(id := Some(id), createdAt := Some(now))
  }

  /** The message `send_class_reminder(classId)` appends: none for an
      unknown or inactive class, otherwise one to the class's parent. */
  function ReminderFor(classes: map<string, TutoringClass>, classId: string, msgId: string, now: int): (sent: seq<Message>)
    ensures |sent| == (if classId in classes && classes[classId].isActive then 1 else 0)
    ensures forall m :: m in sent ==> classId in classes && classes[classId].isActive
                                      && m.phone == classes[classId].parentPhone && m.status == "sent"
                                      && m.message == ReminderText(classes[classId])
                                      && m.id == msgId && m.timestamp == now
  {
    if classId in classes && classes[classId].isActive then
      [Message(msgId, classes[classId].parentPhone, ReminderText(classes[classId]), now, "sent")]
    else []
  }

  /** The module-level state of main.py. Record ids, message ids and
      timestamps come in as parameters. */
  class App {
    var parents: map<string, Parent>
    var classes: map<string, TutoringClass>
    var classOrder: seq<string>
    var messages: seq<Message>
    const scheduler: Scheduler

    ghost predicate Valid()
      reads this, scheduler
    {
      && OrderOf(classOrder, classes)
      && (forall id :: id in classes ==> classes[id].id == Some(id))
      && (forall phone :: phone in parents ==> parents[phone].phone == phone)
      && InSync(classes, scheduler.jobs)
    }

    /** `classes_db.values()`, in insertion order. */
    function ClassList(): seq<TutoringClass>
      reads this
      requires OrderOf(classOrder, classes)
    {
      ValuesAt(classOrder, classes)
    }

    constructor ()
      ensures Valid() && fresh(scheduler)
      ensures parents == map[] && classes == map[] && classOrder == [] && messages == []
      ensures scheduler.jobs == map[]
    {
      parents := map[];
      classes := map[];
      classOrder := [];
      messages := [];
      scheduler := new Scheduler();
    }

    /** `send_whatsapp_message`: the `WhatsAppMessage` model is built first,
        so a missing phone raises before anything is logged; otherwise one
        entry is appended to `messages_db`. */
    method SendWhatsAppMessage(phone: Option<string>, text: string, msgId: string, now: int) returns (sent: bool)
      modifies this`messages
      ensures sent <==> phone.Some?
      ensures messages == if sent then old(messages) + [Message(msgId, phone.value, text, now, "sent")] else old(messages)
    {
      if phone.None? {
        return false;
      }
      messages := messages + [Message(msgId, phone.value, text, now, "sent")];
      sent := true;
    }

    /** `send_class_reminder`: nothing for an unknown or inactive class,
        otherwise exactly one message to the class's parent. It reads the
        class store and changes only the message log. */
    method SendClassReminder(classId: string, msgId: string, now: int)
      modifies this`messages
      ensures messages == old(messages) + ReminderFor(classes, classId, msgId, now)
    {
      if classId !in classes {
        return;
      }
      var c := classes[classId];
      if !c.isActive {
        return;
      }
      var _ := SendWhatsAppMessage(Some(c.parentPhone), ReminderText(c), msgId, now);
    }

    /** `schedule_reminder`: weekday lookup, time parse, `datetime.replace`
        (which raises on an out-of-range hour or minute), then `add_job` with
        `replace_existing=True` under `"reminder_" + classId`. */
    method ScheduleReminder(classId: string, c: TutoringClass) returns (raised: bool)
      modifies scheduler
      ensures raised <==> PlanFor(c).Raise?
      ensures scheduler.jobs == Scheduled(old(scheduler.jobs), classId, c)
    {
      var day := DayIndex(c.dayOfWeek);
      if day.None? {
        return false;
      }
      var time := ParseClassTime(c.classTime);
      if time.None? {
        return false;
      }
      if !ValidClock(time.value) {
        return true;
      }
      var fire := (time.value.hour * MinutesPerHour + time.value.minute - c.reminderMinutes) % MinutesPerDay;
      var trigger := CronSpec(day.value, fire / MinutesPerHour, fire % MinutesPerHour);
      scheduler.AddJob(JobKey(classId), Job(classId, trigger));
      raised := false;
    }

    /** `create_parent`: 400 for a phone already registered. */
    method CreateParent(p: Parent) returns (r: Response)
      requires Valid()
      modifies this`parents
      ensures Valid()
      ensures p.phone in old(parents) ==> r == Failed(400, "Parent already exists") && parents == old(parents)
      ensures p.phone !in old(parents) ==>
                r == Created("Parent registered successfully", p.phone) && parents == old(parents)[p.phone := p]
    {
      if p.phone in parents {
        return Failed(400, "Parent already exists");
      }
      parents := parents[p.phone := p];
      r := Created("Parent registered successfully", p.phone);
    }

    /** `create_class`: the record is stored under the new id before the
        reminder is scheduled, so a class with an unknown weekday or a
        malformed time is kept without a job, and one whose hour or minute is
        out of range is kept without a job while the request fails with 500.
        `freshId` is the `uuid4()` value, which no stored class has. */
    method CreateClass(c: TutoringClass, freshId: string, now: int) returns (r: Response)
      requires Valid() && freshId !in classes
      modifies this`classes, this`classOrder, scheduler
      ensures Valid()
      ensures classes == old(classes)[freshId := NewRecord(c, freshId, now)]
      ensures classOrder == old(classOrder) + [freshId]
      ensures scheduler.jobs == Scheduled(old(scheduler.jobs), freshId, NewRecord(c, freshId, now))
      ensures !PlanFor(c).Install? ==> scheduler.jobs == old(scheduler.jobs)
      ensures r == if PlanFor(c).Raise? then InternalError else Created("Class created successfully", freshId)
    {
      var stored := NewRecord(c, freshId, now);
      OrderAfterInsert(classOrder, classes, freshId, stored);
      SyncAfterCreate(classes, scheduler.jobs, freshId, stored);
      classes := classes[freshId := stored];
      classOrder := classOrder + [freshId];
      var raised := ScheduleReminder(freshId, stored);
      r := if raised then InternalError else Created("Class created successfully", freshId);
    }

    /** `update_class`: 404 for an unknown id; otherwise the old job is
        removed (absent is fine), the record is replaced with `id = classId`,
        and the new record is scheduled, so an update with an invalid weekday
        or time leaves the class with no job at all. */
    method UpdateClass(classId: string, c: TutoringClass) returns (r: Response)
      requires Valid()
      modifies this`classes, scheduler
      ensures Valid()
      ensures classId !in old(classes) ==>
                r == Failed(404, "Class not found") && classes == old(classes) && scheduler.jobs == old(scheduler.jobs)
      ensures classId in old(classes) ==>
                && classes == old(classes)[classId := c.(id := Some(classId))]
                && scheduler.jobs == Scheduled(old(scheduler.jobs) - {JobKey(classId)}, classId, c.(id := Some(classId)))
                && r == (if PlanFor(c).Raise? then InternalError else Ok("Class updated successfully"))
                && (!PlanFor(c).Install? ==> JobKey(classId) !in scheduler.jobs)
    {
      if classId !in classes {
        return Failed(404, "Class not found");
      }
      var _ := scheduler.RemoveJob(JobKey(classId));
      var stored := c.(id := Some(classId));
      SyncAfterUpdate(classes, old(scheduler.jobs), classId, stored);
      classes := classes[classId := stored];
      var raised := ScheduleReminder(classId, stored);
      r := if raised then InternalError else Ok("Class updated successfully");
    }

    /** `delete_class`: 404 for an unknown id; otherwise the job (if any) and
        the record go, and every other class and job stays as it was. */
    method DeleteClass(classId: string) returns (r: Response)
      requires Valid()
      modifies this`classes, this`classOrder, scheduler
      ensures Valid()
      ensures classId !in old(classes) ==>
                && r == Failed(404, "Class not found")
                && classes == old(classes) && classOrder == old(classOrder) && scheduler.jobs == old(scheduler.jobs)
      ensures classId in old(classes) ==>
                && r == Ok("Class deleted successfully")
                && classes == old(classes) - {classId}
                && classOrder == Without(old(classOrder), classId)
                && scheduler.jobs == old(scheduler.jobs) - {JobKey(classId)}
      ensures forall k :: k in scheduler.jobs ==> scheduler.jobs[k].classId != classId
    {
      if classId !in classes {
        return Failed(404, "Class not found");
      }
      var _ := scheduler.RemoveJob(JobKey(classId));
      SyncAfterDelete(classes, old(scheduler.jobs), classId);
      OrderAfterRemove(classOrder, classes, classId);
      classes := classes - {classId};
      classOrder := Without(classOrder, classId);
      r := Ok("Class deleted successfully");
    }

    /** `send_manual_reminder`: 404 for an unknown id; otherwise the
        dispatcher runs and the route reports success whether or not a
        message went out. The request body, `custom_message` included, is
        not used. */
    method SendManualReminder(classId: string, request: ReminderRequest, msgId: string, now: int) returns (r: Response)
      modifies this`messages
      ensures classId !in classes ==> r == Failed(404, "Class not found") && messages == old(messages)
      ensures classId in classes ==>
                r == Ok("Reminder sent successfully") && messages == old(messages) + ReminderFor(classes, classId, msgId, now)
    {
      if classId !in classes {
        return Failed(404, "Class not found");
      }
      SendClassReminder(classId, msgId, now);
      r := Ok("Reminder sent successfully");
    }

    /** `get_parent_classes`: the stored classes with that phone, in
        insertion order. */
    method GetParentClasses(phone: string) returns (r: seq<TutoringClass>)
      requires Valid()
      ensures forall c :: c in r <==> (exists id :: id in classes && classes[id] == c) && c.parentPhone == phone
      ensures r == ClassesOf(ClassList(), phone)
    {
      r := ClassesOf(ClassList(), phone);
      forall c | c in ClassList() ensures exists id :: id in classes && classes[id] == c {
        var i :| 0 <= i < |classOrder| && ClassList()[i] == c;
        assert classes[classOrder[i]] == c;
      }
      forall id | id in classes ensures classes[id] in ClassList() {
        var i :| 0 <= i < |classOrder| && classOrder[i] == id;
        assert ClassList()[i] == classes[id];
      }
    }

    /** `get_messages`: the logged messages to that phone, in the order sent. */
    method GetMessages(phone: string) returns (r: seq<Message>)
      ensures forall m :: m in r <==> m in messages && m.phone == phone
      ensures r == MessagesTo(messages, phone)
    {
      r := MessagesTo(messages, phone);
    }

    /** `whatsapp_webhook`: one reply, addressed to the sender, built from
        the lowered text; a payload without a phone fails with 500 when the
        reply is sent, and then nothing is logged. `today` is
        `datetime.now().strftime("%A")`. */
    method WhatsAppWebhook(payload: WebhookPayload, today: string, msgId: string, now: int) returns (r: Response)
      requires Valid()
      modifies this`messages
      ensures Valid()
      ensures payload.phone.Some? ==>
                && r == Ok("processed")
                && messages == old(messages) + [Message(msgId, payload.phone.value,
                     WebhookReply(ClassList(), payload.phone, payload.text.GetOr(""), today), now, "sent")]
      ensures payload.phone.None? ==> r == InternalError && messages == old(messages)
    {
      var phone := payload.phone;
      var text := Lower(payload.text.GetOr(""));
      var reply := HelpText;
      if Contains(text, "classes") {
        var mine := SenderClasses(ClassList(), phone);
        reply := BuildClassesReply(mine);
      } else if Contains(text, "today") {
        var mineToday := SenderTodayClasses(ClassList(), phone, today);
        reply := BuildTodayReply(mineToday, today);
      }
      var sent := SendWhatsAppMessage(phone, reply, msgId, now);
      r := if sent then Ok("processed") else InternalError;
    }

    /** `health_check`: the sizes of the three stores. */
    method HealthCheck(now: int) returns (h: Health)
      requires Valid()
      ensures h == Health("healthy", now, |parents|, |classes|, |scheduler.jobs|)
      ensures h.scheduledJobs == |ScheduledIds(classes)| <= h.totalClasses
    {
      SyncJobCount(classes, scheduler.jobs);
      h := Health("healthy", now, |parents|, |classes|, scheduler.JobCount());
    }
  }

  /** The two plans of the scenario below. */
  lemma FridayEvening()
    ensures PlanReminder("Friday", "18:00", 15) == Install(CronSpec(4, 17, 45))
    ensures PlanReminder("Friday", "18:00", 45) == Install(CronSpec(4, 17, 15))
  {
    assert "18:00" == FormatClock(Clock(18, 0));
    ParseFormattedClock(Clock(18, 0));
  }

  /** A Friday class at 18:00 with a 15-minute lead gets one job for Friday
      17:45 under `reminder_c1`; updating the lead to 45 replaces it by one
      for Friday 17:15; deleting the class leaves no job. */
  lemma FridayScenario(c: TutoringClass, now: int)
    requires c.dayOfWeek == "Friday" && c.classTime == "18:00" && c.reminderMinutes == 15
    ensures var created := Scheduled(map[], "c1", NewRecord(c, "c1", now));
            var updated := Scheduled(created - {JobKey("c1")}, "c1", c.(id := Some("c1"), reminderMinutes := 45));
            && created == map[JobKey("c1") := Job("c1", CronSpec(4, 17, 45))]
            && updated == map[JobKey("c1") := Job("c1", CronSpec(4, 17, 15))]
            && updated - {JobKey("c1")} == map[]
  {
    FridayEvening();
    var created := Scheduled(map[], "c1", NewRecord(c, "c1", now));
    assert created == map[JobKey("c1") := Job("c1", CronSpec(4, 17, 45))];
    assert created - {JobKey("c1")} == map[];
  }
}
