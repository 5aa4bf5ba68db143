# AndroidNotification, modelled in Dafny

A model of `AndroidNotification`, the value type of the Unity mobile
notifications package that describes one local Android notification, together
with its two enums `NotificationStyle` and `GroupAlertBehaviours`. The type
keeps nineteen internal fields in raw form: strings, flags, an `int` badge
`number`, epoch milliseconds for `fireTime` and `customTimestamp`, milliseconds
for `repeatInterval`, enum codes, and a packed-ARGB `int` for the accent color.
Its public properties convert between that raw form and the caller's view.

Files:

- `integers.dfy` (module `Integers`): C# `int`, `long` and `byte` over unbounded
  integers. It models the operators the color code uses:
  - `<<`, as repeated doubling truncated to 32 bits;
  - `>>`, as repeated halving that rounds toward negative infinity;
  - `|` and `&`, bit by bit on two's-complement numbers;
  - the unchecked `(byte)` cast.

  It also proves the facts that connect these operators to arithmetic.
- `colors.dfy` (module `Colors`): `Color32` and the packing done by the `Color`
  setter. It has two versions of the getter: the one as written (`DecodeAsWritten`),
  which the class's `Color` getter uses, and the corrected one (`Decode`), which
  the class's `SetColor` contract uses to show that the stored int itself is right.
- `time.dfy` (module `Time`): `DateTime` as ticks, `TimeSpan` as whole
  milliseconds, `DatetimeToLong`, `LongToDatetime` and `TimeSpan.FromMilliseconds`.
  An operation that throws in .NET returns `None` here.
- `enums.dfy` (module `Enums`): the two enums. A C# enum holds any value of its
  underlying `int`, and the casts do not check. So each enum here wraps its
  code, the named members are constants, and `IsNamed` tells whether a code is
  one of them.
- `notification.dfy` (module `Notifications`): the class `AndroidNotification`.
  - It has the nineteen fields in source order.
  - `Raw()` is a snapshot of those fields as a `Fields` value.
  - There are three constructors, and a getter and a setter for every property.
  - Each converting getter requires only that its own field converts without
    throwing. `Valid()` is the conjunction of those three conditions. Every
    constructor establishes it and every setter keeps it, except for a repeat
    interval of ±922337203685477 ms. Only the RepeatInterval getter is affected
    by such an interval; FireTime and CustomTimestamp still read.

Three behaviours of the code are worth knowing, and the model keeps each as
written:

- The RepeatInterval setter stores a negative interval as given
  (`Runtime/Android/AndroidNotification.cs:120`); only null becomes -1 (line 122).
- The RepeatInterval getter does not treat -1 specially (line 116), so on a
  fresh notification, or after setting null, it reads as an interval of -1 ms.
- The Color getter passes the extracted bytes to `Color32` in the order
  (a, r, g, b) (line 163), so a set color reads back with its channels rotated
  (see Findings).

## Model

| member | source | states |
|---|---|---|
| Integers.DoubledIs | Runtime/Android/AndroidNotification.cs:172-173 | Shifting left by n bits, before truncation, multiplies by 2^n |
| Integers.DivPow2 | Runtime/Android/AndroidNotification.cs:158-161 | An arithmetic right shift by n is floor division by 2^n, also for negative ints, and the low n bits are the remainder |
| Integers.OrDisjoint | Runtime/Android/AndroidNotification.cs:172-173 | `|` of a multiple of 2^n and a number below 2^n is their sum |
| Integers.AndLowMask | Runtime/Android/AndroidNotification.cs:158-161 | `&` with 2^n - 1 is reduction modulo 2^n, also for negative ints |
| Integers.Wrap32 | Runtime/Android/AndroidNotification.cs:172-173 | The truncation of a C# `int` result: it differs from x by a multiple of 2^32 and leaves an x within the 32-bit range as it is |
| Integers.ShiftLeft | Runtime/Android/AndroidNotification.cs:172-173 | C# `<<` on an int: the count modulo 32, then truncation to 32 bits. No contract of its own; DoubledIs and Colors.Lane state it is multiplication by 2^count, truncated |
| Integers.ShiftRight | Runtime/Android/AndroidNotification.cs:158-161 | C# `>>` on an int, with the count modulo 32. No contract of its own; DivPow2 and Colors.ChannelAt state it is floor division by 2^count |
| Integers.BitOr | Runtime/Android/AndroidNotification.cs:172-173 | C# `|` on ints. No contract of its own; OrDisjoint and Colors.OrLanes state that over non-overlapping lanes it is addition |
| Integers.BitAnd | Runtime/Android/AndroidNotification.cs:158-161 | C# `&` on ints. No contract of its own; AndLowMask and Colors.MaskByte state that `& 0xff` is reduction modulo 256 |
| Integers.ToByte | Runtime/Android/AndroidNotification.cs:163 | The unchecked `(byte)` cast keeps the value modulo 256: the byte differs from x by a multiple of 256 |
| Colors.Pack | Runtime/Android/AndroidNotification.cs:172-173 | The packing of a color. No contract of its own; PackValue, PackNegative and PackZero state its value |
| Colors.Encode | Runtime/Android/AndroidNotification.cs:165-175 | The Color setter: null stores 0, a color its packing. No contract of its own; DecodeEncode and EncodeDecode make it the inverse of the corrected getter |
| Colors.DecodeAsWritten | Runtime/Android/AndroidNotification.cs:153-164 | The getter as written yields null if and only if the stored int is 0; DecodeAsWrittenRotates states what it makes of a packed color |
| Colors.Channel | Runtime/Android/AndroidNotification.cs:158-161 | Each channel the getter extracts lies in 0..255, whatever 32-bit value is stored |
| Colors.ChannelAt | Runtime/Android/AndroidNotification.cs:158-161 | `(color >> shift) & 0xff` is the base-256 digit of the stored int at place 2^shift |
| Colors.ChannelPlaces | Runtime/Android/AndroidNotification.cs:158-161 | The extractions at shifts 24, 16, 8 and 0 are the four base-256 digits of the stored int |
| Colors.Lane | Runtime/Android/AndroidNotification.cs:172-173 | One lane `(x & 0xff) << shift` of the setter is the byte times 2^shift, truncated to 32 bits |
| Colors.WrapAlpha | Runtime/Android/AndroidNotification.cs:172 | The alpha lane is negative exactly when alpha is 128 or more, 2^32 below a·2^24 |
| Colors.OrLanes | Runtime/Android/AndroidNotification.cs:172-173 | The three `|` of the setter add up lanes that do not overlap |
| Colors.PackValue | Runtime/Android/AndroidNotification.cs:172-173 | The packed int is a·2^24 + r·2^16 + g·2^8 + b read in 32-bit two's complement |
| Colors.PackNegative | Runtime/Android/AndroidNotification.cs:172-173 | The packed int is negative if and only if alpha is 128 or more |
| Colors.PackZero | Runtime/Android/AndroidNotification.cs:167-173 | A color packs to the "no color" 0 if and only if all four bytes are 0 |
| Colors.DigitsOf | Runtime/Android/AndroidNotification.cs:158-161 | The base-256 digits of a packed value are the bytes put into its lanes |
| Colors.Base256 | Runtime/Android/AndroidNotification.cs:158-161 | Every 32-bit int is its four base-256 digits reassembled, the top one counting negative from 128 |
| Colors.ChannelsOfPack | Runtime/Android/AndroidNotification.cs:158-173 | Extracting at 24, 16, 8 and 0 from a packed color gives back its a, r, g and b bytes, also when alpha >= 128 |
| Colors.Digits | Runtime/Android/AndroidNotification.cs:158-161 | Any stored int is the four extracted bytes put back together |
| Colors.Decode | Runtime/Android/AndroidNotification.cs:155-163 | The corrected getter yields null if and only if the stored int is 0 |
| Colors.DecodeEncode | Runtime/Android/AndroidNotification.cs:155-173 | With the corrected getter, a set color reads back as itself. Null, and the all-zero color, read back as null |
| Colors.EncodeDecode | Runtime/Android/AndroidNotification.cs:155-173 | Every stored int is the packing of the color it reads as, so setting what was read stores the same int |
| Colors.DecodeAsWrittenRotates | Runtime/Android/AndroidNotification.cs:158-163 | With the getter as written, a color set as (r, g, b, a) reads back as (a, r, g, b) |
| Colors.DecodeAsWrittenMisreadsOrange | Runtime/Android/AndroidNotification.cs:163 | With the getter as written, opaque orange (255, 128, 0, 255) reads back as (255, 255, 128, 0) |
| Time.DatetimeToLong | Runtime/Android/AndroidNotification.cs:87-93 | The milliseconds since the epoch, rounded down. No contract of its own; DatetimeRoundTrip and MillisecondsRoundTrip state it is LongToDatetime's inverse up to that rounding |
| Time.LongToDatetime | Runtime/Android/AndroidNotification.cs:95-99 | The epoch plus the milliseconds, None where AddMilliseconds throws. No contract of its own; LongToDatetimeRange states where it throws |
| Time.FromMilliseconds | Runtime/Android/AndroidNotification.cs:116 | `TimeSpan.FromMilliseconds` with its rounding half away from zero and its overflow test. No contract of its own; FromMillisecondsRange states what it accepts |
| Time.FromMillisecondsRange | Runtime/Android/AndroidNotification.cs:116 | FromMilliseconds throws exactly for the two extreme counts ±922337203685477 and beyond, and otherwise yields a span of the given milliseconds |
| Time.DatetimeRoundTrip | Runtime/Android/AndroidNotification.cs:87-99 | A stored timestamp reads back as the DateTime truncated to the millisecond: within range, never later, less than 1 ms earlier |
| Time.MillisecondsRoundTrip | Runtime/Android/AndroidNotification.cs:87-99 | A millisecond count that names a DateTime converts back to the same count |
| Time.LongToDatetimeRange | Runtime/Android/AndroidNotification.cs:95-99 | The millisecond counts that convert without throwing are exactly those in DateTime's range |
| Enums.NamedStyles | Runtime/Android/AndroidNotification.cs:9-26 | The named styles are exactly the codes 0 and 2, and BigTextStyle is 2 |
| Enums.NamedGroupAlertBehaviours | Runtime/Android/AndroidNotification.cs:31-49 | The named alert behaviours are exactly the codes 0, 1 and 2, so the sentinel -1 names none |
| Notifications.EncodeRepeatInterval | Runtime/Android/AndroidNotification.cs:117-123 | What the RepeatInterval setter stores: -1 for null, else the milliseconds. No contract of its own; RepeatIntervalReadBack states what the getter makes of it |
| Notifications.Defaults | Runtime/Android/AndroidNotification.cs:313-338 | The fields as the three-argument constructor leaves them. No contract of its own; DefaultsReadBack states how they read, and the constructor that it produces them |
| Notifications.RepeatIntervalReadBack | Runtime/Android/AndroidNotification.cs:116-123 | The getter throws exactly for a stored ±922337203685477. Otherwise it never yields null: a set interval reads back as itself, and null reads back as -1 ms |
| Notifications.DefaultsReadBack | Runtime/Android/AndroidNotification.cs:313-338 | The default fields satisfy the invariant. They read as no color, style None, an unnamed alert behaviour, a -1 ms interval, and the fire time truncated to the millisecond |
| Notifications.AndroidNotification.constructor | Runtime/Android/AndroidNotification.cs:313-338 | Every field holds its sentinel default, fireTime holds the converted fire time, and the invariant holds |
| Notifications.AndroidNotification.Repeating | Runtime/Android/AndroidNotification.cs:346-350 | Equal to the three-argument form except for repeatInterval, which holds the interval. The invariant holds if and only if the interval is not one of the two extreme spans |
| Notifications.AndroidNotification.RepeatingWithIcon | Runtime/Android/AndroidNotification.cs:352-356 | Equal to the four-argument form except for smallIcon, with the same invariant condition |
| Notifications.AndroidNotification.FireTime | Runtime/Android/AndroidNotification.cs:106 | Needs only fireTime to lie in DateTime's range. The DateTime read converts back to the stored milliseconds |
| Notifications.AndroidNotification.SetFireTime | Runtime/Android/AndroidNotification.cs:107 | Only fireTime changes. In any state the new time reads back truncated to the millisecond, and the invariant is kept |
| Notifications.AndroidNotification.RepeatInterval | Runtime/Android/AndroidNotification.cs:116 | Needs only the stored milliseconds to convert. Never null: an interval of the stored milliseconds |
| Notifications.AndroidNotification.SetRepeatInterval | Runtime/Android/AndroidNotification.cs:117-123 | Only repeatInterval changes: -1 for null, else the milliseconds. The getter can read the field back if and only if the interval is not one of the two extreme spans, and the invariant is kept under the same condition. Then an interval reads back as itself, and null reads back as -1 ms |
| Notifications.AndroidNotification.Style | Runtime/Android/AndroidNotification.cs:143 | The unchecked cast of the stored code. No contract of its own; SetStyle's contract makes it the setter's inverse |
| Notifications.AndroidNotification.SetStyle | Runtime/Android/AndroidNotification.cs:141-145 | Only style changes, to the enum's code, and the value reads back unchanged |
| Notifications.AndroidNotification.Color | Runtime/Android/AndroidNotification.cs:153-164 | The getter as written: null if and only if the stored int is 0 |
| Notifications.AndroidNotification.SetColor | Runtime/Android/AndroidNotification.cs:165-175 | Only color changes: 0 for null, else the packing. Through the getter as written a color (r, g, b, a) reads back as (a, r, g, b), and null and the all-zero color read back as null. The corrected getter reads back the color that was set |
| Notifications.AndroidNotification.GroupAlertBehaviour | Runtime/Android/AndroidNotification.cs:236 | The unchecked cast of the stored code. No contract of its own; SetGroupAlertBehaviour's contract makes it the setter's inverse |
| Notifications.AndroidNotification.SetGroupAlertBehaviour | Runtime/Android/AndroidNotification.cs:234-238 | Only groupAlertBehaviour changes, to the enum's code, and the value reads back unchanged |
| Notifications.AndroidNotification.CustomTimestamp | Runtime/Android/AndroidNotification.cs:273 | Needs only customTimestamp to lie in DateTime's range. The DateTime read converts back to the stored milliseconds |
| Notifications.AndroidNotification.SetCustomTimestamp | Runtime/Android/AndroidNotification.cs:274-278 | showCustomTimestamp becomes true and customTimestamp the converted time, and nothing else changes. In any state the time reads back truncated, and the invariant is kept |
| Notifications.AndroidNotification.SetTitle | Runtime/Android/AndroidNotification.cs:60-64 | Only title changes |
| Notifications.AndroidNotification.SetText | Runtime/Android/AndroidNotification.cs:70-74 | Only text changes |
| Notifications.AndroidNotification.SetSmallIcon | Runtime/Android/AndroidNotification.cs:81-85 | Only smallIcon changes |
| Notifications.AndroidNotification.SetLargeIcon | Runtime/Android/AndroidNotification.cs:131-135 | Only largeIcon changes |
| Notifications.AndroidNotification.SetNumber | Runtime/Android/AndroidNotification.cs:182-186 | Only number changes |
| Notifications.AndroidNotification.SetShouldAutoCancel | Runtime/Android/AndroidNotification.cs:192-196 | Only shouldAutoCancel changes |
| Notifications.AndroidNotification.SetUsesStopwatch | Runtime/Android/AndroidNotification.cs:201-205 | Only usesStopwatch changes |
| Notifications.AndroidNotification.SetGroup | Runtime/Android/AndroidNotification.cs:212-216 | Only group changes |
| Notifications.AndroidNotification.SetGroupSummary | Runtime/Android/AndroidNotification.cs:223-227 | Only groupSummary changes |
| Notifications.AndroidNotification.SetSortKey | Runtime/Android/AndroidNotification.cs:244-248 | Only sortKey changes |
| Notifications.AndroidNotification.SetIntentData | Runtime/Android/AndroidNotification.cs:253-257 | Only intentData changes |
| Notifications.AndroidNotification.SetShowTimestamp | Runtime/Android/AndroidNotification.cs:262-266 | Only showTimestamp changes |

Each plain getter (`Title`, `Text`, `SmallIcon`, `LargeIcon`, `Number`,
`ShouldAutoCancel`, `UsesStopwatch`, `Group`, `GroupSummary`, `SortKey`,
`IntentData`, `ShowTimestamp`) returns its field.

## Left out

- `ToUniversalTime` and `ToLocalTime` depend on the host's time zone and
  daylight-saving rules. The model treats every DateTime as UTC, so both
  conversions are the identity, and `DateTimeKind` is not modelled.
- `TimeSpan.TotalMilliseconds`, `Math.Floor` and `AddMilliseconds` work in
  `double`. The model computes their results in exact integer arithmetic, so
  it does not model the rounding of those doubles.
- Time.FromMilliseconds: the two extreme spans are refused as the .NET
  Framework class library, which Mono's shares, rounds and checks. Runtimes
  based on .NET Core 3.0 and later accept them. The model follows the former.
- Notifications.AndroidNotification.SetRepeatInterval: a TimeSpan is modelled
  in whole milliseconds, so the `(long)` truncation of a sub-millisecond part
  of `TotalMilliseconds` is not modelled.
- Unity's conversion between the float `Color` and `Color32` is not modelled.
  The properties are modelled at the `Color32` byte level: the setter starts
  from a `Color32` and the getter stops at one.
- Null strings are not modelled: a Dafny `string` always has a value. The same
  holds for the zero-initialised struct that C#'s implicit parameterless
  constructor (`default(AndroidNotification)`) yields.
- `AndroidNotification` is a C# struct with copy-on-assignment semantics. The
  model is a Dafny class, which is shared by reference. Copies are not modelled.
- The documented but unenforced constraints are not modelled, because the
  code does not check them:
  - the 1-minute minimum repeat interval;
  - the Android API levels;
  - the icon resource folder.
- Scheduling, JNI and delivery to Android are not part of this model.

## Findings

| source | as written | input that shows it | evidently intended | confidence | as-written member | corrected member |
|---|---|---|---|---|---|---|
| Runtime/Android/AndroidNotification.cs:163 | The getter calls `new Color32((byte)a, (byte)r, (byte)g, (byte)b)`, but `UnityEngine.Color32`'s constructor takes (r, g, b, a). Every color read back is rotated | Set opaque orange r=255, g=128, b=0, a=255. It reads back as r=255, g=255, b=128, a=0: transparent yellow | `new Color32((byte)r, (byte)g, (byte)b, (byte)a)`, so that a set color reads back unchanged | high; depends on Color32's parameter order (r, g, b, a); not executed | Colors.DecodeAsWrittenRotates | Colors.DecodeEncode |
