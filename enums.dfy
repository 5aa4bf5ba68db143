/** The two enums the descriptor stores as ints. A C# enum value is any value
    of its underlying `int`, named or not, and the casts `(int)e` and `(E)i`
    convert without checking; so each enum is its underlying int, with the
    named members as constants. */
module Enums {
  import opened Integers

  /** NotificationStyle. The value 1 was BigPicture, a member now disabled:
      the slot stays unnamed. */
  datatype NotificationStyle = NotificationStyle(value: Int32)
  {
    static const None: NotificationStyle := NotificationStyle(0)
    static const BigTextStyle: NotificationStyle := NotificationStyle(2)

    /** One of the named members. */
    predicate IsNamed()
    {
      this == None || this == BigTextStyle
    }
  }

  /** GroupAlertBehaviours. */
  datatype GroupAlertBehaviours = GroupAlertBehaviours(value: Int32)
  {
    static const GroupAlertAll: GroupAlertBehaviours := GroupAlertBehaviours(0)
    static const GroupAlertSummary: GroupAlertBehaviours := GroupAlertBehaviours(1)
    static const GroupAlertChildren: GroupAlertBehaviours := GroupAlertBehaviours(2)

    /** One of the named members. */
    predicate IsNamed()
    {
      this == GroupAlertAll || this == GroupAlertSummary || this == GroupAlertChildren
    }
  }

  /** The named styles are exactly the codes 0 and 2: BigTextStyle is stored
      as 2 and the old BigPicture code 1 names nothing. This only unfolds
      IsNamed and the member constants; it records the codes for readers of
      the enum rather than proving anything deeper. */
  lemma NamedStyles(s: NotificationStyle)
    ensures s.IsNamed() <==> s.value == 0 || s.value == 2
    ensures NotificationStyle.BigTextStyle.value == 2
  {
  }

  /** The named alert behaviours are exactly the codes 0, 1 and 2; the unset
      sentinel -1 names none of them. Like NamedStyles, this only unfolds the
      definitions. */
  lemma NamedGroupAlertBehaviours(g: GroupAlertBehaviours)
    ensures g.IsNamed() <==> 0 <= g.value <= 2
  {
  }
}
