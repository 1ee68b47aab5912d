/** The texts main.py sends: the class reminder of `send_class_reminder`
    and the replies of the WhatsApp webhook, which the webhook assembles with
    repeated `+=` in loops. */
module Replies {
  import opened Common
  import opened Text
  import opened Records

  /** The reminder text after `.strip()`: the template begins with a newline
      and ends with `".\n"`, and stripping removes exactly those two newlines. */
  function ReminderText(c: TutoringClass): (s: string)
    ensures |s| > 9 && s[0] == '\U{1F514}' && s[|s| - 9..] == " minutes."
    ensures Contains(s, "Subject: " + c.subject + "\n")
    ensures Contains(s, "Student: " + c.childName + "\n")
    ensures Contains(s, "Time: " + c.classTime + "\n")
    ensures Contains(s, "Today: " + c.dayOfWeek + "\n")
    ensures Contains(s, "starts in " + IntToString(c.reminderMinutes) + " minutes.")
  {
    var subject := "Subject: " + c.subject + "\n";
    var student := "Student: " + c.childName + "\n";
    var time := "Time: " + c.classTime + "\n";
    var day := "Today: " + c.dayOfWeek + "\n";
    var lead := "starts in " + IntToString(c.reminderMinutes) + " minutes.";
    ContainsFields("\U{1F514} Class Reminder!\n\n\U{1F4DA} ", subject, "\U{1F476} ", student,
                   "\U{23F0} ", time, "\U{1F4C5} ", day, "\nDon't forget! Class ", lead);
    "\U{1F514} Class Reminder!\n\n\U{1F4DA} " + subject + "\U{1F476} " + student
    + "\U{23F0} " + time + "\U{1F4C5} " + day + "\nDon't forget! Class " + lead
  }

  /** The reply for a message with neither keyword. */
  const HelpText :=
    "I'm your tutoring " + "reminder assistant! Commands:\n"
    + "\U{2022} 'classes' - View your classes\n"
    + "\U{2022} 'today' - Today's classes\n"
    + "\U{2022} 'help' - Show commands"

  const ClassesHeader := "Your scheduled classes:\n\n"
  const NoClassesText := "No classes scheduled yet."

  /** The f-strings the webhook's loops append, one function per `+=`. */
  function SubjectLine(c: TutoringClass): string {
    "\U{1F4DA} " + c.subject + " - " + c.childName + "\n"
  }

  function ScheduleLine(c: TutoringClass): string {
    "\U{1F4C5} " + c.dayOfWeek + " at " + c.classTime + "\n"
  }

  function LeadLine(c: TutoringClass): string {
    "\U{1F514} Reminder: " + IntToString(c.reminderMinutes) + " min before\n\n"
  }

  function TimeLine(c: TutoringClass): string {
    "\U{23F0} " + c.classTime + "\n\n"
  }

  /** One class in the `classes` reply: three lines and a blank line. */
  function ClassEntry(c: TutoringClass): string {
    SubjectLine(c) + ScheduleLine(c) + LeadLine(c)
  }

  /** One class in the `today` reply: two lines and a blank line. */
  function TodayEntry(c: TutoringClass): string {
    SubjectLine(c) + TimeLine(c)
  }

  /** The entries of `cs`, in order, one after another. */
  function Entries(cs: seq<TutoringClass>, entry: TutoringClass -> string): string {
    if |cs| == 0 then "" else Entries(cs[..|cs| - 1], entry) + entry(cs[|cs| - 1])
  }

  function TodayHeader(today: string): string {
    "Today's classes (" + (today + "):\n\n")
  }

  function NoTodayText(today: string): string {
    "No classes scheduled for today (" + (today + ").")
  }

  /** The `classes` reply for the sender's classes `cs`. */
  function ClassesReply(cs: seq<TutoringClass>): string {
    if |cs| == 0 then NoClassesText else ClassesHeader + Entries(cs, ClassEntry)
  }

  /** The `today` reply for the sender's classes `cs` on weekday `today`. */
  function TodayReply(cs: seq<TutoringClass>, today: string): string {
    if |cs| == 0 then NoTodayText(today) else TodayHeader(today) + Entries(cs, TodayEntry)
  }

  /** The sender's classes as the webhook selects them: a missing phone is
      `None`, which equals no stored phone. */
  function SenderClasses(classes: seq<TutoringClass>, phone: Option<string>): seq<TutoringClass> {
    if phone.Some? then ClassesOf(classes, phone.value) else []
  }

  function SenderTodayClasses(classes: seq<TutoringClass>, phone: Option<string>, today: string): seq<TutoringClass> {
    if phone.Some? then TodayClassesOf(classes, phone.value, today) else []
  }

  /** The webhook's reply: the text is lowered, `"classes"` is tested before
      `"today"`, and otherwise the help text is sent. */
  function WebhookReply(classes: seq<TutoringClass>, phone: Option<string>, text: string, today: string): (r: string)
    ensures r == HelpText <==> !Contains(Lower(text), "classes") && !Contains(Lower(text), "today")
  {
    var t := Lower(text);
    if Contains(t, "classes") then
      var cs := SenderClasses(classes, phone);
      ReplyTextsStart(today);
      assert ClassesReply(cs)[0] != HelpText[0];
      ClassesReply(cs)
    else if Contains(t, "today") then
      var cs := SenderTodayClasses(classes, phone, today);
      ReplyTextsStart(today);
      assert TodayReply(cs, today)[0] != HelpText[0];
      TodayReply(cs, today)
    else HelpText
  }

  /** The `classes` reply built as the webhook's loop builds it. */
  method BuildClassesReply(cs: seq<TutoringClass>) returns (reply: string)
    ensures reply == ClassesReply(cs)
  {
    if |cs| == 0 {
      return NoClassesText;
    }
    reply := ClassesHeader;
    for i := 0 to |cs|
      invariant reply == ClassesHeader + Entries(cs[..i], ClassEntry)
    {
      var c := cs[i];
      ghost var prev := reply;
      reply := reply + SubjectLine(c);
      reply := reply + ScheduleLine(c);
      reply := reply + LeadLine(c);
      AppendAssoc(prev, SubjectLine(c), ScheduleLine(c));
      AppendAssoc(prev, SubjectLine(c) + ScheduleLine(c), LeadLine(c));
      EntriesStep(cs, i, ClassEntry);
      AppendAssoc(ClassesHeader, Entries(cs[..i], ClassEntry), ClassEntry(c));
    }
    assert cs[..|cs|] == cs;
  }

  /** The replies to a keyword begin unlike the help text. */
  lemma ReplyTextsStart(today: string)
    ensures TodayHeader(today)[0] == 'T' && NoTodayText(today)[0] == 'N' && HelpText[0] == 'I'
    ensures ClassesHeader[0] == 'Y' && NoClassesText[0] == 'N'
  {
    var header, none := "Today's classes (", "No classes scheduled for today (";
    assert header[0] == 'T' && none[0] == 'N';
    assert (header + (today + "):\n\n"))[0] == header[0];
    assert (none + (today + ")."))[0] == none[0];
    var opening := "I'm your tutoring ";
    var intro := opening + "reminder assistant! Commands:\n";
    var first := intro + "\U{2022} 'classes' - View your classes\n";
    var second := first + "\U{2022} 'today' - Today's classes\n";
    assert opening[0] == 'I' && intro[0] == opening[0] && first[0] == intro[0] && second[0] == first[0];
    assert HelpText == second + "\U{2022} 'help' - Show commands";
  }

  /** The `today` reply built as the webhook's loop builds it. */
  method BuildTodayReply(cs: seq<TutoringClass>, today: string) returns (reply: string)
    ensures reply == TodayReply(cs, today)
  {
    if |cs| == 0 {
      return NoTodayText(today);
    }
    reply := TodayHeader(today);
    for i := 0 to |cs|
      invariant reply == TodayHeader(today) + Entries(cs[..i], TodayEntry)
    {
      var c := cs[i];
      ghost var prev := reply;
      reply := reply + SubjectLine(c);
      reply := reply + TimeLine(c);
      AppendAssoc(prev, SubjectLine(c), TimeLine(c));
      EntriesStep(cs, i, TodayEntry);
      AppendAssoc(TodayHeader(today), Entries(cs[..i], TodayEntry), TodayEntry(c));
    }
    assert cs[..|cs|] == cs;
  }

  /** One more element adds its entry at the end. */
  lemma EntriesStep(cs: seq<TutoringClass>, i: int, entry: TutoringClass -> string)
    requires 0 <= i < |cs|
    ensures Entries(cs[..i + 1], entry) == Entries(cs[..i], entry) + entry(cs[i])
  {
    assert cs[..i + 1][..i] == cs[..i];
  }

  lemma {:induction false} EntriesAppend(a: seq<TutoringClass>, b: seq<TutoringClass>, entry: TutoringClass -> string)
    ensures Entries(a + b, entry) == Entries(a, entry) + Entries(b, entry)
  {
    if |b| == 0 {
      assert a + b == a;
    } else {
      assert (a + b)[..|a + b| - 1] == a + b[..|b| - 1];
      EntriesAppend(a, b[..|b| - 1], entry);
    }
  }

  /** The entries of `cs` split around its `k`-th element. */
  lemma {:induction false} EntriesAround(cs: seq<TutoringClass>, k: int, entry: TutoringClass -> string)
    requires 0 <= k < |cs|
    ensures Entries(cs, entry) == Entries(cs[..k], entry) + entry(cs[k]) + Entries(cs[k + 1..], entry)
  {
    var a, b := cs[..k] + [cs[k]], cs[k + 1..];
    assert cs == a + b;
    EntriesAppend(a, b, entry);
    assert a[..|a| - 1] == cs[..k];
  }

  /** Each entry of `cs` occurs in a reply made of a header and the entries. */
  lemma {:induction false} EntryInReply(header: string, cs: seq<TutoringClass>, k: int, entry: TutoringClass -> string)
    requires 0 <= k < |cs|
    ensures Contains(header + Entries(cs, entry), entry(cs[k]))
  {
    EntriesAround(cs, k, entry);
    var before, after := Entries(cs[..k], entry), Entries(cs[k + 1..], entry);
    assert header + Entries(cs, entry) == (header + before) + entry(cs[k]) + after;
    ContainsPiece(header + before, entry(cs[k]), after);
  }

  /** Each of the sender's classes appears in the `classes` reply. */
  lemma ClassListedInReply(cs: seq<TutoringClass>, k: int)
    requires 0 <= k < |cs|
    ensures Contains(ClassesReply(cs), ClassEntry(cs[k]))
  {
    EntryInReply(ClassesHeader, cs, k, ClassEntry);
  }

  /** Each of the sender's classes today appears in the `today` reply. */
  lemma TodayListedInReply(cs: seq<TutoringClass>, today: string, k: int)
    requires 0 <= k < |cs|
    ensures Contains(TodayReply(cs, today), TodayEntry(cs[k]))
  {
    EntryInReply(TodayHeader(today), cs, k, TodayEntry);
  }

  /** The keywords are matched whatever the case of the incoming text. */
  lemma WebhookReplyIgnoresCase(classes: seq<TutoringClass>, phone: Option<string>, text: string, today: string)
    ensures WebhookReply(classes, phone, Lower(text), today) == WebhookReply(classes, phone, text, today)
  {
    LowerIdempotent(text);
  }

  /** `"classes"` is tested first: any text containing it, in any case,
      gets the class list, whether or not it also contains `"today"`; the
      `today` reply goes only to texts without `"classes"`. */
  lemma KeywordPriority(classes: seq<TutoringClass>, phone: Option<string>, text: string, today: string)
    ensures Contains(Lower(text), "classes")
            ==> WebhookReply(classes, phone, text, today) == ClassesReply(SenderClasses(classes, phone))
    ensures !Contains(Lower(text), "classes") && Contains(Lower(text), "today")
            ==> WebhookReply(classes, phone, text, today) == TodayReply(SenderTodayClasses(classes, phone, today), today)
  {
  }

  /** An example of the priority: `"Today: CLASSES?"` gets the class list. */
  lemma ClassesBeforeToday(classes: seq<TutoringClass>, phone: string, today: string)
    ensures WebhookReply(classes, Some(phone), "Today: CLASSES?", today) == ClassesReply(ClassesOf(classes, phone))
  {
    var t := Lower("Today: CLASSES?");
    assert t[7..14] == "classes";
    assert OccursAt(t, "classes", 7);
  }
}
