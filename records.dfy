/** The records main.py keeps in its in-memory stores (the pydantic models
    `TutoringClass`, `Parent`, `ReminderRequest`, the dicts appended to
    `messages_db`), the HTTP answers of its routes, and the list
    comprehensions that read those stores. */
module Records {
  import opened Common

  /** `TutoringClass`. `id` and `createdAt` are `None` until the server sets
      them; `createdAt` is a timestamp supplied by the caller of the model. */
  datatype TutoringClass = TutoringClass(
    id: Option<string>,
    parentPhone: string,
    childName: string,
    subject: string,
    dayOfWeek: string,
    classTime: string,
    reminderMinutes: int,
    isActive: bool,
    createdAt: Option<int>)

  /** `Parent`. */
  datatype Parent = Parent(phone: string, name: string, children: seq<string>, timezone: string)

  /** `ReminderRequest`, the body of the manual-reminder route. */
  datatype ReminderRequest = ReminderRequest(classId: string, customMessage: Option<string>)

  /** One entry of `messages_db`; its status is always `"sent"`. */
  datatype Message = Message(id: string, phone: string, message: string, timestamp: int, status: string)

  /** The JSON body of the webhook; either key may be missing. */
  datatype WebhookPayload = WebhookPayload(phone: Option<string>, text: Option<string>)

  /** What a route answers: a JSON body with a `message` (or `status`)
      field, the same with the created key, or an HTTP error. */
  datatype Response =
    | Ok(message: string)
    | Created(message: string, key: string)
    | Failed(status: nat, detail: string)

  /** The error an uncaught exception becomes. */
  const InternalError := Failed(500, "Internal Server Error")

  /** The body of `/health`. */
  datatype Health = Health(status: string, timestamp: int, totalParents: nat, totalClasses: nat, scheduledJobs: nat)

  /** `[c for c in classes if c["parent_phone"] == phone]`: exactly the
      classes with that phone. */
  function ClassesOf(classes: seq<TutoringClass>, phone: string): (r: seq<TutoringClass>)
    ensures forall c :: c in r <==> c in classes && c.parentPhone == phone
  {
    Filter(classes, (c: TutoringClass) => c.parentPhone == phone)
  }

  /** `[c for c in classes if c["parent_phone"] == phone and c["day_of_week"] == today]`:
      exactly the parent's classes held on that weekday. */
  function TodayClassesOf(classes: seq<TutoringClass>, phone: string, today: string): (r: seq<TutoringClass>)
    ensures forall c :: c in r <==> c in ClassesOf(classes, phone) && c.dayOfWeek == today
  {
    Filter(classes, (c: TutoringClass) => c.parentPhone == phone && c.dayOfWeek == today)
  }

  /** `[m for m in messages if m["phone"] == phone]`: exactly the logged
      messages with that phone. */
  function MessagesTo(messages: seq<Message>, phone: string): (r: seq<Message>)
    ensures forall m :: m in r <==> m in messages && m.phone == phone
  {
    Filter(messages, (m: Message) => m.phone == phone)
  }

  /** Appending a message to another phone does not change what a phone sees;
      appending one to it adds exactly that message at the end. */
  lemma MessagesToAppend(messages: seq<Message>, m: Message, phone: string)
    ensures MessagesTo(messages + [m], phone)
            == MessagesTo(messages, phone) + (if m.phone == phone then [m] else [])
  {
    FilterAppend(messages, [m], (x: Message) => x.phone == phone);
    assert [m][1..] == [];
  }
}
