# Tutoring-reminder backend: a verified model

This project models the core of `main.py` in Study-Sync, a small web backend that reminds parents of their children's tutoring classes over WhatsApp. It covers:

- **In-memory stores.** `parents_db`, `classes_db` (by id) and `messages_db`.
- **Scheduler job store.** One cron job per class, held under the id `"reminder_" + class_id`.
- **`schedule_reminder`.** Turns a class's weekday, `"HH:MM"` time and reminder lead into a weekly cron trigger.
- **Dispatcher.** `send_class_reminder` and `send_whatsapp_message` append one message to the log.
- **Routes.** Create a parent, create, update and delete a class, send a manual reminder, list a parent's classes, list the messages to a phone, the WhatsApp webhook, and the health check.

The modules follow the program's layers:

- `Common`: `Option`, order-preserving `Filter`, `Distinct`.
- `Text`: the Python string operations involved, as used here: `split(':')`, `int()` on decimal literals, `str()` of an integer, ASCII `lower()`, and the substring test `w in s`.
- `Trigger`: the weekday mapping, time parsing and the cron trigger.
- `Records`: the record types and the list comprehensions over them.
- `JobStore`: job ids and the `Scheduler` class holding the job map.
- `Replies`: the reminder text and the webhook replies, built by loops as `main.py` builds them.
- `Service`: the `App` class holding the stores, with one method per route. `App.Valid()` states that the stores agree:
  - `classOrder` lists the keys of `classes` in insertion order;
  - every record carries its own id;
  - every parent is stored under its phone;
  - the job map is exactly what `schedule_reminder` gives for the stored classes (`InSync`).

Every route that changes state keeps `Valid()`.

**The reminder fires on the class's own weekday.** The code takes `datetime.now().replace(hour, minute) - timedelta(minutes=lead)` and keeps only that result's hour and minute (`main.py:274-283`). The cron day always stays the class's own `day_mapping` value. So a Monday 00:10 class with a 30-minute lead fires on Monday at 23:40: a day late, after the class has started. A weekly-minute computation (`Trigger.WeeklyFireSpec`) would instead fire on the preceding day when the lead crosses midnight.

The model follows the code (`Trigger.PlanReminder`, `Trigger.FireSpecOfPlan`); `Trigger.MondayPastMidnight` is the concrete case where the two part. `Trigger.SameDayVersusWeekly` proves where the two part, for every lead from 0 up to the minutes since midnight plus six days. In that range they agree on hour and minute, and agree on the weekday exactly when the lead does not reach back past midnight. Outside it (a negative lead, or one longer than the minutes since midnight plus six days) the weekday condition does not hold in general.

Record ids (`uuid4`), message ids, timestamps and the "today" weekday name come in as parameters.

## Model

| member | source | states |
|---|---|---|
| Common.Filter | main.py:153-156 | the comprehensions `[x for x in xs if p(x)]` (also main.py:207-210, 225-228, 240-243): no longer than the input, holding exactly the elements that satisfy the test |
| Common.FilterAppend | main.py:153-156 | filtering distributes over concatenation, so the comprehension keeps each kept element as often as it occurs and in the input's order |
| Text.ParseIntToString | main.py:268 | the `int()` model inverts the `str()` model: `int(str(n)) == n` for every integer |
| Text.IntToString | main.py:105 | `str()` of an integer: non-empty, starting with `-` exactly for negatives, digits after the sign with no leading zero (so, with `ParseIntToString`, the text is the one `str()` gives) |
| Text.ParseInt | main.py:268 | `int()` succeeds exactly on an optional sign followed by one or more digits; only a `-` sign gives a negative value |
| Text.ParseIntDigits | main.py:268 | a plain digit string reads as its decimal value |
| Text.ParseIntSigned | main.py:268 | a `+` in front keeps the value of the digits, a `-` negates it |
| Text.DigitsLeadingZero | main.py:268 | a leading zero does not change the value of a digit string |
| Text.ParseIntNonCanonical | main.py:268 | `int("0" + d) == int(d)`, `int("+" + d) == int(d)` and `int("-" + d) == -int(d)`, so with `ParseIntToString` the value of every accepted literal is fixed |
| Text.Split | main.py:268 | `split(':')` gives at least one field and no field contains the separator |
| Text.JoinSplit | main.py:268 | joining the fields of a split with the separator gives back the string |
| Text.SplitJoin | main.py:268 | splitting a join of separator-free fields gives back the fields |
| Text.SplitFieldCount | main.py:268 | a split has one field more than the string has separators, so `"HH:MM"` gives exactly two fields |
| Text.Lower | main.py:217 | `lower()` keeps the length and lowers each ASCII letter in place |
| Text.LowerIdempotent | main.py:217 | lowering twice is lowering once, and no upper-case ASCII letter remains |
| Text.ContainsPiece | main.py:224 | the substring test holds of every piece a string is built from |
| Trigger.DayIndex | main.py:257-262 | a name maps to a weekday index in 0..6 only if it is that day's name |
| Trigger.DayIndexOfName | main.py:257-260 | each of the seven names maps to its index, Monday = 0 … Sunday = 6 |
| Trigger.ParseClassTime | main.py:267-271 | a time parses exactly when it has one colon and both fields are integer literals (so `"9:30"` parses as well as `"09:30"`), and then the fields' values are the hour and minute |
| Trigger.ValidClock | main.py:274-276 | the hour and minute `datetime.replace` accepts; a valid clock is a minute of the day |
| Trigger.SameDayFireSpec | main.py:273-283 | the trigger keeps the class's weekday, has hour 0..23 and minute 0..59, and adding the lead back gives the class's time modulo a day |
| Trigger.ParseFormattedClock | main.py:267-268 | parsing a zero-padded `"HH:MM"` of a valid clock gives back that clock |
| Trigger.ParseTwoFields | main.py:267-268 | two colon-free integer literals joined by a colon parse to the clock of their values |
| Trigger.PlanReminder | main.py:255-292 | an installed trigger always has weekday 0..6, hour 0..23 and minute 0..59 |
| Trigger.PlanOutcomes | main.py:262-276 | unknown weekday: skip; time not two integers: skip; hour or minute out of range: the call raises; otherwise install (each exactly characterised) |
| Trigger.FireSpecOfPlan | main.py:273-283 | the trigger's weekday is the class's own day index, its minute of the day is `(h*60+m-lead) mod 1440`, and adding the lead back gives the class time |
| Trigger.WeeklyRoundTrip | main.py:273-283 | the weekly-minute alternative adds back to the class's minute of the week |
| Trigger.SameDayVersusWeekly | main.py:273-283 | for a lead from 0 up to the minutes since midnight plus six days: `schedule_reminder`'s and the weekly triggers agree on hour and minute, agree on the weekday iff the lead does not cross midnight, and the weekly one fires the day before when the lead reaches into the previous day |
| Trigger.MondayPastMidnight | main.py:273-283 | Monday 00:10 with lead 30 installs Monday 23:40 (weekly would give Sunday 23:40) |
| Trigger.WednesdayAfternoon | main.py:273-283 | Wednesday 16:00 with lead 30 installs Wednesday 15:30 |
| Trigger.NegativeHourRaises | main.py:267-276 | `"-05:30"` is read as hour -5, so `datetime.replace` raises |
| Trigger.PlusSignedHour | main.py:267-283 | `"+9:30"` is read as 9:30, so a 30-minute lead installs Monday 09:00 |
| Records.ClassesOf | main.py:150-157 | a parent's classes are exactly the stored classes with that phone |
| Records.TodayClassesOf | main.py:240-243 | today's classes are exactly the parent's classes on that weekday |
| Records.MessagesTo | main.py:204-211 | the messages to a phone are exactly the logged messages with that phone |
| Records.MessagesToAppend | main.py:76-82 | logging a message adds it at the end of its own phone's list and changes no other phone's list |
| JobStore.JobKey | main.py:290 | the job id starts with `"reminder_"` and the rest of it is the class id |
| JobStore.JobKeyInjective | main.py:290 | two classes share a job id iff they are the same class |
| JobStore.Scheduler.AddJob | main.py:286-292 | `add_job` with `replace_existing=True` puts the job under its id, replacing any job there |
| JobStore.Scheduler.RemoveJob | main.py:166-169 | `remove_job` removes the id; the lookup error (swallowed by the caller) is the absent case, and then nothing changes |
| JobStore.Scheduler.JobCount | main.py:304 | `len(get_jobs())`: zero exactly for an empty store, one more than the store without any one of its jobs |
| JobStore.DueClassIds | main.py:279-292 | a class is due at a minute exactly when some job for it has a trigger that fires then |
| JobStore.AddJobTwice | main.py:286-292 | scheduling twice under one id leaves one entry holding the second job |
| JobStore.RemoveJobEffect | main.py:187-190 | removing an absent id changes nothing; removing a present one removes that entry only |
| Replies.ReminderText | main.py:97-106 | the stripped reminder starts with the bell and ends with `" minutes."`, with no newline left at either end, and carries the subject, student, time and day lines and the lead |
| Replies.WebhookReply | main.py:216-250 | the help text is the reply exactly when the lowered text contains neither keyword |
| Replies.BuildClassesReply | main.py:229-236 | the `classes` reply the loop builds is the header followed by one entry per class in order, or the "no classes" text |
| Replies.BuildTodayReply | main.py:244-250 | the `today` reply the loop builds is the dated header followed by one entry per class, or the "none today" text |
| Replies.ClassListedInReply | main.py:230-234 | every class of the sender appears in the `classes` reply |
| Replies.TodayListedInReply | main.py:245-248 | every class of the sender today appears in the `today` reply |
| Replies.WebhookReplyIgnoresCase | main.py:217 | the reply does not depend on the case of the incoming text |
| Replies.KeywordPriority | main.py:224-238 | any text whose lowered form contains `"classes"` gets the class list, whether or not it contains `"today"`; the `today` reply goes only to texts without `"classes"` |
| Replies.ClassesBeforeToday | main.py:224-238 | one example of the priority: `"Today: CLASSES?"` gets the class list |
| Service.OrderAfterInsert | main.py:138 | adding a new key to a dict appends it to the insertion order |
| Service.OrderAfterRemove | main.py:192 | `del` keeps the other keys in order, each once |
| Service.SyncAfterCreate | main.py:134-141 | storing a class under a fresh id and scheduling it keeps the job map in step with the classes |
| Service.SyncAfterUpdate | main.py:165-176 | removing the old job, replacing the record and rescheduling keeps the stores in step |
| Service.SyncAfterDelete | main.py:186-192 | removing the job and the record keeps the stores in step |
| Service.ScheduledAt | main.py:286-292 | scheduling changes only the class's own job id, and installs there exactly the planned job |
| Service.UnstoredNeverDue | main.py:87-91 | a class that is not stored has no job, so it is never due |
| Service.JobKeysCount | main.py:290 | a set of class ids has as many job ids |
| Service.SyncJobCount | main.py:304 | the job count equals the number of classes with valid schedule fields, never more than the number of classes |
| Service.ReminderFor | main.py:87-108 | the dispatcher's messages: exactly one for an active stored class and none otherwise; it goes to the class's parent phone with status `"sent"`, the given id and timestamp, and the class's `ReminderText` as its body |
| Service.DueExactly | main.py:279-292 | when the stores are in step, a class is due at a minute exactly when it is stored and the trigger its own fields give fires then |
| Service.FridayEvening | main.py:273-283 | Friday 18:00 installs Friday 17:45 with lead 15 and Friday 17:15 with lead 45 |
| Service.FridayScenario | main.py:131-193 | create, update and delete of a Friday class leave one job, then the replaced job, then none |
| Service.App.constructor | main.py:28-60 | all stores and the job map start empty and agree |
| Service.App.SendWhatsAppMessage | main.py:73-84 | with a phone, one `"sent"` message is appended; without one, the model validation raises and nothing is logged |
| Service.App.SendClassReminder | main.py:87-108 | no message for an unknown or inactive class, otherwise the reminder text to the parent's phone; classes and jobs untouched |
| Service.App.ScheduleReminder | main.py:255-292 | raises iff hour or minute is out of range; the job map becomes the class's planned job under its id, or stays as it was |
| Service.App.CreateParent | main.py:115-122 | 400 for a known phone and nothing changes; otherwise the parent is stored under its phone |
| Service.App.CreateClass | main.py:131-143 | the record with its new id and timestamp is stored and appended to the order before scheduling; invalid fields leave the job map unchanged; an out-of-range time answers 500 with the record kept |
| Service.App.UpdateClass | main.py:159-178 | 404 and no change for an unknown id; otherwise the old job is removed, the record replaced with `id = class_id`, and rescheduled, so invalid fields leave the class with no job |
| Service.App.DeleteClass | main.py:180-193 | 404 and no change for an unknown id; otherwise the job and record go, others keep their order, and no job refers to the class |
| Service.App.SendManualReminder | main.py:195-202 | 404 for an unknown id; otherwise success whether or not a message went out, with the custom message ignored |
| Service.App.GetParentClasses | main.py:150-157 | exactly the stored classes with that phone, in insertion order |
| Service.App.GetMessages | main.py:204-211 | exactly the logged messages to that phone, in the order sent |
| Service.App.WhatsAppWebhook | main.py:213-253 | with a phone, exactly one reply to the sender, chosen from the lowered text; without one, 500 and nothing logged |
| Service.App.HealthCheck | main.py:297-305 | the three store sizes, with the job count at most the class count |

## Left out

- The APScheduler timing loop, asyncio and firing jobs at wall-clock time are not modelled. `JobStore.DueClassIds` states which class ids a given minute of the week makes due.
- The HTTP framework, CORS, JSON encoding and logging are not modelled. A route's answer is a `Response` value; an uncaught exception is `InternalError` (HTTP 500).
- `uuid4()` and `datetime.now()` are parameters. `create_class` requires its id to be fresh, which is what `uuid4` provides.
- `get_parent` and `get_all_classes` are not modelled: each only reads one store (a lookup answering 404 for an unknown phone, and the list of all classes).
- `root` is not modelled: it returns a constant greeting and touches no store.
- The startup and shutdown hooks are not modelled: they only start and stop the scheduler's timing loop, which is itself left out.
- `app.py` and `run_both.py` are not part of this model.
- Text.ParseInt: covers an optional sign followed by ASCII digits only. Python's `int()` also accepts surrounding whitespace, underscores between digits and non-ASCII digits; those inputs are treated as malformed here. Python also refuses a literal of more than 4300 digits, leading zeros included (`ValueError`), which the model accepts. So a `class_time` of 4301 zeros followed by `:30` is skipped by `schedule_reminder` but gets a job in the model.
- Text.Lower: lowers ASCII letters only. Python lowers all Unicode letters, but the keyword tests for `"classes"` and `"today"` come out the same either way.
- Service.App.WhatsAppWebhook: a payload value that is not a string (such as `"text": null`) is not modelled.
- Trigger.PlanReminder: does not model the `OverflowError` that `datetime` raises for a lead that takes the datetime out of range (before year 1 or after year 9999). The trigger is computed for every integer lead.
