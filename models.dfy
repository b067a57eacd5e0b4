/** The recurring-task template record, its recurrence kinds, and the shape of
    the task items the engine emits. */
module Models {
  import opened Wrappers
  import opened Calendar

  /** The named members of the recurrence enumeration. */
  datatype RecurrenceType = Daily | Weekly | Monthly | Yearly

  /** The integer value each enumeration member carries. */
  function RecurrenceValue(t: RecurrenceType): int {
    match t
    case Daily => 1
    case Weekly => 2
    case Monthly => 3
    case Yearly => 4
  }

  /** The member an enumeration value names, if any: an enum-typed field can
      hold any integer, 0 in a template nobody has set. */
  function RecurrenceTypeOf(v: int): (r: Option<RecurrenceType>)
    ensures r.Some? <==> 1 <= v <= 4
    ensures r.Some? ==> RecurrenceValue(r.value) == v
  {
    if v == 1 then Some(Daily)
    else if v == 2 then Some(Weekly)
    else if v == 3 then Some(Monthly)
    else if v == 4 then Some(Yearly)
    else None
  }

  /** Every member has its own value: the four values are distinct and read back. */
  lemma RecurrenceValueRoundTrip(t: RecurrenceType)
    ensures RecurrenceTypeOf(RecurrenceValue(t)) == Some(t)
  {
  }

  datatype Priority = Low | Medium | High

  /** A recurrence rule together with the schedule state the engine advances.
      The enumeration-typed RecurrenceType is kept as its integer value. */
  datatype RecurringTaskTemplate = RecurringTaskTemplate(
    id: int,
    userId: string,
    title: string,
    description: Option<string>,
    priority: Priority,
    categoryId: Option<int>,
    recurrenceType: int,
    recurrenceInterval: int,
    daysOfWeek: Option<string>,
    startDate: Date,
    endDate: Option<Date>,
    maxOccurrences: Option<int>,
    isActive: bool,
    lastGeneratedDate: Option<Date>,
    nextDueDate: Date,
    createdDate: DateTime)

  /** A task as the engine creates it (the database assigns its key). */
  datatype TaskItem = TaskItem(
    userId: string,
    title: string,
    description: Option<string>,
    dueDate: Option<Date>,
    priority: Priority,
    categoryId: Option<int>,
    isCompleted: bool,
    createdDate: DateTime)

  const MinDate: Date := Date(1, 1, 1)

  /** int.MaxValue: RecurrenceInterval and the day numbers are 32-bit ints. */
  const IntMax: int := 2147483647

  /** A template as `new RecurringTaskTemplate()` makes it: the declared
      initialisers, and the type defaults (0, DateTime.MinValue) elsewhere. */
  function NewTemplate(): (t: RecurringTaskTemplate)
    ensures t.isActive && t.recurrenceInterval == 1 && t.priority == Medium
    ensures t.description == Some("") && t.userId == ""
    ensures t.daysOfWeek.None? && t.endDate.None? && t.maxOccurrences.None?
    ensures t.lastGeneratedDate.None? && t.categoryId.None?
    ensures RecurrenceTypeOf(t.recurrenceType).None?
    ensures !SatisfiesRequired(t)
  {
    RecurringTaskTemplate(
      0, "", "", Some(""), Medium, None,
      0, 1, None,
      MinDate, None, None,
      true, None, MinDate, DateTime(MinDate, 0))
  }

  /** `char.IsWhiteSpace`: the Unicode space separators, the line and
      paragraph separators, and the control characters U+0009..U+000D and
      U+0085. */
  predicate IsWhiteSpace(c: char) {
    || c == ' ' || '\t' <= c <= '\r' || c == '\U{0085}' || c == '\U{00A0}' || c == '\U{1680}'
    || '\U{2000}' <= c <= '\U{200A}' || c == '\U{2028}' || c == '\U{2029}' || c == '\U{202F}'
    || c == '\U{205F}' || c == '\U{3000}'
  }

  /** The [Required] annotations: a title that is not null, empty or only
      white space (`AllowEmptyStrings` is off); StartDate and RecurrenceType
      are value-typed and always present. */
  predicate SatisfiesRequired(t: RecurringTaskTemplate) {
    exists k :: 0 <= k < |t.title| && !IsWhiteSpace(t.title[k])
  }

  /** `s.TrimStart()`: the text from its first character that is not white space. */
  function TrimStart(s: string): (r: string)
    ensures |r| <= |s| && r == s[|s| - |r|..]
    ensures r != [] ==> !IsWhiteSpace(r[0])
    ensures forall k :: 0 <= k < |s| - |r| ==> IsWhiteSpace(s[k])
  {
    if s != [] && IsWhiteSpace(s[0]) then TrimStart(s[1..]) else s
  }

  /** `s.TrimEnd()`: the text up to its last character that is not white space. */
  function TrimEnd(s: string): (r: string)
    ensures |r| <= |s| && r == s[..|r|]
    ensures r != [] ==> !IsWhiteSpace(r[|r| - 1])
    ensures forall k :: |r| <= k < |s| ==> IsWhiteSpace(s[k])
  {
    if s != [] && IsWhiteSpace(s[|s| - 1]) then TrimEnd(s[..|s| - 1]) else s
  }

  /** `s.Trim()`. */
  function Trim(s: string): string {
    TrimEnd(TrimStart(s))
  }

  /** Required accepts a title exactly when trimming white space off both ends
      leaves something, and accepts a title with any character that is not
      white space; " \t\U{00A0}" is refused. */
  lemma RequiredTitle(t: RecurringTaskTemplate, k: int)
    ensures SatisfiesRequired(t) <==> Trim(t.title) != []
    ensures 0 <= k < |t.title| && !IsWhiteSpace(t.title[k]) ==> SatisfiesRequired(t)
    ensures !SatisfiesRequired(t.(title := " \t\U{00A0}"))
  {
    var s := TrimStart(t.title);
    if Trim(t.title) != [] {
      var j := |t.title| - |s|;
      assert t.title[j] == s[0];
    }
  }

  predicate IsDigit(c: char) {
    '0' <= c <= '9'
  }

  /** A DaysOfWeek text made of decimal digits and commas only. */
  predicate DayListText(s: string) {
    forall k :: 0 <= k < |s| ==> IsDigit(s[k]) || s[k] == ','
  }

  /** What the engine needs of a template so that its arithmetic is defined
      and its generation loop terminates. The weekly step computes
      `7 * RecurrenceInterval` in a 32-bit int, so the interval is bounded
      for that product not to wrap. */
  predicate WellFormed(t: RecurringTaskTemplate) {
    && 1 <= t.recurrenceInterval && 7 * t.recurrenceInterval <= IntMax
    && ValidDate(t.startDate)
    && ValidDate(t.nextDueDate)
    && (t.endDate.Some? ==> ValidDate(t.endDate.value))
    && (t.daysOfWeek.Some? ==> DayListText(t.daysOfWeek.value))
  }

  /** The two templates agree on everything but the schedule state
      (IsActive, LastGeneratedDate, NextDueDate). */
  predicate SameDefinition(a: RecurringTaskTemplate, b: RecurringTaskTemplate) {
    a == b.(isActive := a.isActive, lastGeneratedDate := a.lastGeneratedDate, nextDueDate := a.nextDueDate)
  }
}
