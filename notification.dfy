/** AndroidNotification: the description of one local notification that the
    scheduler hands to Android. It keeps nineteen internal fields in raw form
    (epoch milliseconds, packed ARGB, enum codes, -1 and "" for "unset") and
    converts at its properties. */
module Notifications {
  import opened Integers
  import opened Wrappers
  import opened Time
  import opened Enums
  import Colors

  /** The struct's internal fields, in the order the source declares them. */
  datatype Fields = Fields(
    title: string,
    text: string,
    smallIcon: string,
    fireTime: Int64,
    shouldAutoCancel: bool,
    largeIcon: string,
    style: Int32,
    color: Int32,
    number: Int32,
    usesStopwatch: bool,
    repeatInterval: Int64,
    intentData: string,
    group: string,
    groupSummary: bool,
    sortKey: string,
    groupAlertBehaviour: Int32,
    showTimestamp: bool,
    customTimestamp: Int64,
    showCustomTimestamp: bool)
  {
    /** What the constructors and setters keep: the three converting getters
        (FireTime, RepeatInterval, CustomTimestamp) can convert the stored
        value without throwing. */
    ghost predicate Valid()
    {
      && FromMilliseconds(repeatInterval).Some?
      && LongToDatetime(fireTime).Some?
      && LongToDatetime(customTimestamp).Some?
    }
  }

  /** What the RepeatInterval setter stores: -1 for null, otherwise the
      interval in milliseconds. */
  function EncodeRepeatInterval(value: Option<TimeSpan>): Int64
  {
    match value
    case None => -1
    case Some(span) => span.milliseconds
  }

  /** The fields as the three-argument constructor leaves them. */
  function Defaults(title: string, text: string, fireTime: DateTime): Fields
  {
    Fields(
      title := title,
      text := text,
      smallIcon := "",
      fireTime := DatetimeToLong(fireTime),
      shouldAutoCancel := false,
      largeIcon := "",
      style := NotificationStyle.None.value,
      color := 0,
      number := -1,
      usesStopwatch := false,
      repeatInterval := -1,
      intentData := "",
      group := "",
      groupSummary := false,
      sortKey := "",
      groupAlertBehaviour := -1,
      showTimestamp := false,
      customTimestamp := -1,
      showCustomTimestamp := false)
  }

  /** The RepeatInterval getter never yields null: an interval reads back as
      itself, and null reads back as an interval of -1 ms. The two extreme
      spans of ±MaxSpanMilliseconds are stored, but the getter throws on them. */
  lemma RepeatIntervalReadBack(value: Option<TimeSpan>)
    ensures FromMilliseconds(EncodeRepeatInterval(value)).Some? <==>
            value.None? || -MaxSpanMilliseconds < value.value.milliseconds < MaxSpanMilliseconds
    ensures FromMilliseconds(EncodeRepeatInterval(value)).Some? ==>
            FromMilliseconds(EncodeRepeatInterval(value)) == Some(if value.None? then TimeSpan(-1) else value.value)
  {
    FromMillisecondsRange(EncodeRepeatInterval(value));
  }

  /** A freshly constructed notification satisfies the invariant and its
      properties read as: no color, no style, an unnamed group alert
      behaviour, a repeat interval of -1 ms, and the given fire time truncated
      to the millisecond. */
  lemma {:induction false} DefaultsReadBack(title: string, text: string, fireTime: DateTime)
    ensures Defaults(title, text, fireTime).Valid()
    ensures Colors.DecodeAsWritten(Defaults(title, text, fireTime).color) == None
    ensures NotificationStyle(Defaults(title, text, fireTime).style) == NotificationStyle.None
    ensures !GroupAlertBehaviours(Defaults(title, text, fireTime).groupAlertBehaviour).IsNamed()
    ensures FromMilliseconds(Defaults(title, text, fireTime).repeatInterval) == Some(TimeSpan(-1))
    ensures var back := LongToDatetime(Defaults(title, text, fireTime).fireTime).value;
            back.ticks <= fireTime.ticks < back.ticks + TicksPerMillisecond
  {
    DatetimeRoundTrip(fireTime);
  }

  class AndroidNotification {
    var title: string
    var text: string

    var smallIcon: string
    var fireTime: Int64
    var shouldAutoCancel: bool

    var largeIcon: string

    var style: Int32
    var color: Int32

    var number: Int32
    var usesStopwatch: bool
    var repeatInterval: Int64

    var intentData: string

    var group: string
    var groupSummary: bool

    var sortKey: string
    var groupAlertBehaviour: Int32

    var showTimestamp: bool
    var customTimestamp: Int64

    var showCustomTimestamp: bool

    /** All nineteen fields as one value. */
    ghost function Raw(): Fields
      reads this
    {
      Fields(title, text, smallIcon, fireTime, shouldAutoCancel, largeIcon, style, color,
             number, usesStopwatch, repeatInterval, intentData, group, groupSummary, sortKey,
             groupAlertBehaviour, showTimestamp, customTimestamp, showCustomTimestamp)
    }

    ghost predicate Valid()
      reads this
    {
      Raw().Valid()
    }

    // -------------------------------------------------------------------
    // Constructors. The longer overloads start from the fields as the
    // three-argument one leaves them (Defaults, which that constructor is
    // proved to produce), as the source's `: this(...)` does, and then run
    // their own setters.

    /** Every optional field set to its "unset" value, one by one, and then
        fireTime through the FireTime setter. */
    constructor (title: string, text: string, fireTime: DateTime)
      ensures Valid()
      ensures Raw() == Defaults(title, text, fireTime)
    {
      this.title := title;
      this.text := text;

      repeatInterval := -1;
      smallIcon := "";
      shouldAutoCancel := false;
      largeIcon := "";
      style := NotificationStyle.None.value;
      color := 0;
      number := -1;
      usesStopwatch := false;
      intentData := "";
      this.fireTime := -1;
      group := "";
      groupSummary := false;
      sortKey := "";
      groupAlertBehaviour := -1;

      customTimestamp := -1;
      showTimestamp := false;
      showCustomTimestamp := false;
      new;

      SetFireTime(fireTime);
      DefaultsReadBack(title, text, fireTime);
    }

    /** A repeating notification: the fields as the three-argument form leaves
        them, then the RepeatInterval setter. The invariant holds unless the
        interval is one of the two extreme spans, which the getter cannot
        convert back. */
    constructor Repeating(title: string, text: string, fireTime: DateTime, repeatInterval: TimeSpan)
      ensures Valid() <==> -MaxSpanMilliseconds < repeatInterval.milliseconds < MaxSpanMilliseconds
      ensures Raw() == Defaults(title, text, fireTime).(repeatInterval := repeatInterval.milliseconds)
    {
      var d := Defaults(title, text, fireTime);
      this.title, this.text, smallIcon, this.fireTime, shouldAutoCancel, largeIcon, style, color,
        number, usesStopwatch, this.repeatInterval, intentData, group, groupSummary, sortKey,
        groupAlertBehaviour, showTimestamp, customTimestamp, showCustomTimestamp
        := d.title, d.text, d.smallIcon, d.fireTime, d.shouldAutoCancel, d.largeIcon, d.style, d.color,
           d.number, d.usesStopwatch, d.repeatInterval, d.intentData, d.group, d.groupSummary, d.sortKey,
           d.groupAlertBehaviour, d.showTimestamp, d.customTimestamp, d.showCustomTimestamp;
      new;
      DefaultsReadBack(title, text, fireTime);
      SetRepeatInterval(Some(repeatInterval));
    }

    /** As the four-argument form, then the SmallIcon setter. */
    constructor RepeatingWithIcon(title: string, text: string, fireTime: DateTime,
                                  repeatInterval: TimeSpan, smallIcon: string)
      ensures Valid() <==> -MaxSpanMilliseconds < repeatInterval.milliseconds < MaxSpanMilliseconds
      ensures Raw() == Defaults(title, text, fireTime).(repeatInterval := repeatInterval.milliseconds,
                                                         smallIcon := smallIcon)
    {
      var d := Defaults(title, text, fireTime);
      this.title, this.text, this.smallIcon, this.fireTime, shouldAutoCancel, largeIcon, style, color,
        number, usesStopwatch, this.repeatInterval, intentData, group, groupSummary, sortKey,
        groupAlertBehaviour, showTimestamp, customTimestamp, showCustomTimestamp
        := d.title, d.text, d.smallIcon, d.fireTime, d.shouldAutoCancel, d.largeIcon, d.style, d.color,
           d.number, d.usesStopwatch, d.repeatInterval, d.intentData, d.group, d.groupSummary, d.sortKey,
           d.groupAlertBehaviour, d.showTimestamp, d.customTimestamp, d.showCustomTimestamp;
      new;
      DefaultsReadBack(title, text, fireTime);
      SetRepeatInterval(Some(repeatInterval));
      SetSmallIcon(smallIcon);
    }

    // -------------------------------------------------------------------
    // Properties that convert

    /** The stored milliseconds as a DateTime; setting what was read stores
        the same milliseconds again. It throws only when fireTime lies outside
        DateTime's range. */
    function FireTime(): (t: DateTime)
      reads this
      requires LongToDatetime(fireTime).Some?
      ensures DatetimeToLong(t) == fireTime
    {
      MillisecondsRoundTrip(fireTime);
      LongToDatetime(fireTime).value
    }

    /** Reads back as the given time truncated to the millisecond. */
    method SetFireTime(value: DateTime)
      modifies this
      ensures Raw() == old(Raw()).(fireTime := DatetimeToLong(value))
      ensures LongToDatetime(fireTime).Some?
      ensures FireTime().ticks <= value.ticks < FireTime().ticks + TicksPerMillisecond
      ensures old(Valid()) ==> Valid()
    {
      fireTime := DatetimeToLong(value);
      DatetimeRoundTrip(value);
    }

    /** Never null, because the getter does not look for the -1 that the
        setter stores for null. */
    function RepeatInterval(): (r: Option<TimeSpan>)
      reads this
      requires FromMilliseconds(repeatInterval).Some?
      ensures r.Some? && r.value.milliseconds == repeatInterval
    {
      Some(FromMilliseconds(repeatInterval).value)
    }

    /** An interval reads back as itself, null as an interval of -1 ms. The
        invariant is kept unless the interval is one of the two extreme spans:
        those are stored, but the getter throws on them. */
    method SetRepeatInterval(value: Option<TimeSpan>)
      modifies this
      ensures Raw() == old(Raw()).(repeatInterval := EncodeRepeatInterval(value))
      ensures FromMilliseconds(repeatInterval).Some? <==>
                value.None? || -MaxSpanMilliseconds < value.value.milliseconds < MaxSpanMilliseconds
      ensures FromMilliseconds(repeatInterval).Some? ==>
                RepeatInterval() == Some(if value.None? then TimeSpan(-1) else value.value)
      ensures old(Valid()) ==>
                (Valid() <==> value.None? || -MaxSpanMilliseconds < value.value.milliseconds < MaxSpanMilliseconds)
    {
      if value.Some? {
        repeatInterval := value.value.milliseconds;
      } else {
        repeatInterval := -1;
      }
      RepeatIntervalReadBack(value);
    }

    function Style(): NotificationStyle
      reads this
    {
      NotificationStyle(style)
    }

    method SetStyle(value: NotificationStyle)
      modifies this
      ensures Raw() == old(Raw()).(style := value.value)
      ensures Style() == value
    {
      style := value.value;
    }

    /** The accent color, with the getter's channel order as written; the
        packed 0 reads as null. */
    function Color(): (value: Option<Colors.Color32>)
      reads this
      ensures value.None? <==> color == 0
    {
      Colors.DecodeAsWritten(color)
    }

    /** Stores the packing. Through the getter as written a color reads back
        rotated, (r, g, b, a) as (a, r, g, b); the stored int itself is right:
        the corrected getter reads it back as the color that was set. Null,
        and the all-zero color, read back as null either way. */
    method SetColor(value: Option<Colors.Color32>)
      modifies this
      ensures Raw() == old(Raw()).(color := Colors.Encode(value))
      ensures value.None? || value == Some(Colors.Transparent) ==> Color() == None
      ensures value.Some? && value != Some(Colors.Transparent) ==>
                Color() == Some(Colors.Color32(value.value.a, value.value.r, value.value.g, value.value.b))
      ensures Colors.Decode(color) == if value == Some(Colors.Transparent) then None else value
    {
      if value.None? {
        color := 0;
      } else {
        var color32 := value.value;
        color := Colors.Pack(color32);
      }
      Colors.DecodeEncode(value);
      if value.Some? {
        Colors.PackZero(value.value);
        if value.value != Colors.Transparent {
          Colors.DecodeAsWrittenRotates(value.value);
        }
      }
    }

    function GroupAlertBehaviour(): GroupAlertBehaviours
      reads this
    {
      GroupAlertBehaviours(groupAlertBehaviour)
    }

    method SetGroupAlertBehaviour(value: GroupAlertBehaviours)
      modifies this
      ensures Raw() == old(Raw()).(groupAlertBehaviour := value.value)
      ensures GroupAlertBehaviour() == value
    {
      groupAlertBehaviour := value.value;
    }

    /** As FireTime, over customTimestamp. */
    function CustomTimestamp(): (t: DateTime)
      reads this
      requires LongToDatetime(customTimestamp).Some?
      ensures DatetimeToLong(t) == customTimestamp
    {
      MillisecondsRoundTrip(customTimestamp);
      LongToDatetime(customTimestamp).value
    }

    /** Also turns on showCustomTimestamp; reads back truncated to the
        millisecond. */
    method SetCustomTimestamp(value: DateTime)
      modifies this
      ensures Raw() == old(Raw()).(showCustomTimestamp := true, customTimestamp := DatetimeToLong(value))
      ensures LongToDatetime(customTimestamp).Some?
      ensures CustomTimestamp().ticks <= value.ticks < CustomTimestamp().ticks + TicksPerMillisecond
      ensures old(Valid()) ==> Valid()
    {
      showCustomTimestamp := true;
      customTimestamp := DatetimeToLong(value);
      DatetimeRoundTrip(value);
    }

    // -------------------------------------------------------------------
    // Properties that pass their field through

    function Title(): string reads this { title }

    method SetTitle(value: string)
      modifies this
      ensures Raw() == old(Raw()).(title := value)
    {
      title := value;
    }

    function Text(): string reads this { text }

    method SetText(value: string)
      modifies this
      ensures Raw() == old(Raw()).(text := value)
    {
      text := value;
    }

    function SmallIcon(): string reads this { smallIcon }

    method SetSmallIcon(value: string)
      modifies this
      ensures Raw() == old(Raw()).(smallIcon := value)
    {
      smallIcon := value;
    }

    function LargeIcon(): string reads this { largeIcon }

    method SetLargeIcon(value: string)
      modifies this
      ensures Raw() == old(Raw()).(largeIcon := value)
    {
      largeIcon := value;
    }

    function Number(): Int32 reads this { number }

    method SetNumber(value: Int32)
      modifies this
      ensures Raw() == old(Raw()).(number := value)
    {
      number := value;
    }

    function ShouldAutoCancel(): bool reads this { shouldAutoCancel }

    method SetShouldAutoCancel(value: bool)
      modifies this
      ensures Raw() == old(Raw()).(shouldAutoCancel := value)
    {
      shouldAutoCancel := value;
    }

    function UsesStopwatch(): bool reads this { usesStopwatch }

    method SetUsesStopwatch(value: bool)
      modifies this
      ensures Raw() == old(Raw()).(usesStopwatch := value)
    {
      usesStopwatch := value;
    }

    function Group(): string reads this { group }

    method SetGroup(value: string)
      modifies this
      ensures Raw() == old(Raw()).(group := value)
    {
      group := value;
    }

    function GroupSummary(): bool reads this { groupSummary }

    method SetGroupSummary(value: bool)
      modifies this
      ensures Raw() == old(Raw()).(groupSummary := value)
    {
      groupSummary := value;
    }

    function SortKey(): string reads this { sortKey }

    method SetSortKey(value: string)
      modifies this
      ensures Raw() == old(Raw()).(sortKey := value)
    {
      sortKey := value;
    }

    function IntentData(): string reads this { intentData }

    method SetIntentData(value: string)
      modifies this
      ensures Raw() == old(Raw()).(intentData := value)
    {
      intentData := value;
    }

    function ShowTimestamp(): bool reads this { showTimestamp }

    method SetShowTimestamp(value: bool)
      modifies this
      ensures Raw() == old(Raw()).(showTimestamp := value)
    {
      showTimestamp := value;
    }
  }
}
