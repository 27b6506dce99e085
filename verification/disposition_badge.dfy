/**
 * The badge that shows a suggested disposition: its text and the colour
 * classes picked by a switch over the disposition's string value.
 */
module DispositionBadge {
  import opened Strings
  import opened Wrappers
  import opened Types

  /** The class string of one colour family: light background, dark text,
      a matching border and a small shadow. */
  function Palette(colour: string): (classes: string)
    ensures EndsWith(classes, " shadow-sm")
  {
    var classes := "bg-" + colour + "-100 text-" + colour + "-800 border-" + colour + "-200" + " shadow-sm";
    assert classes[|classes| - 10..] == " shadow-sm";
    classes
  }

  /** The switch: each case compares the value with `===`; anything no case
      matches falls to the default. */
  function ColorsFor(value: string): (classes: string)
    ensures EndsWith(classes, " shadow-sm")
  {
    if value == Value(SALE) then Palette("green")
    else if value == Value(CALLBK) then Palette("blue")
    else if value == Value(CNP) then Palette("sky")
    else if value == Value(NI) || value == Value(DNC) then Palette("red")
    else if value == Value(CC) || value == Value(LB) then Palette("orange")
    else if value == Value(DNQ) then Palette("amber")
    else if value == Value(TS) then Palette("purple")
    else Palette("slate")
  }

  /** `getColors(disposition)`: every disposition gets a whole palette. */
  function GetColors(d: Disposition): (classes: string)
    ensures EndsWith(classes, " shadow-sm")
  {
    ColorsFor(Value(d))
  }

  /** The badge shows the disposition's string value. */
  function BadgeText(d: Disposition): string {
    Value(d)
  }

  /** The badge text names its disposition unambiguously. */
  lemma BadgeTextIdentifies(d: Disposition)
    ensures FromValue(BadgeText(d)) == Some(d)
  {
    FromValueOfValue(d);
  }

  /** Not Interested and Do Not Call share red; Call Cut and Language Barrier
      share orange. */
  lemma SharedColours()
    ensures GetColors(NI) == GetColors(DNC) == Palette("red")
    ensures GetColors(CC) == GetColors(LB) == Palette("orange")
  {
  }

  /** The colour of each remaining disposition, OTHER taking the default. */
  lemma OwnColours()
    ensures GetColors(SALE) == Palette("green")
    ensures GetColors(CALLBK) == Palette("blue")
    ensures GetColors(CNP) == Palette("sky")
    ensures GetColors(DNQ) == Palette("amber")
    ensures GetColors(TS) == Palette("purple")
    ensures GetColors(OTHER) == Palette("slate")
  {
  }

  /** A value that is not one of the enum's strings gets the default, slate. */
  lemma UnknownValueIsSlate(value: string)
    requires FromValue(value).None?
    ensures ColorsFor(value) == Palette("slate")
  {
  }

  /** The eight colour families give eight different class strings. */
  lemma PalettesDistinct()
    ensures var all := [Palette("green"), Palette("blue"), Palette("sky"), Palette("amber"),
                        Palette("purple"), Palette("red"), Palette("orange"), Palette("slate")];
      forall i, j :: 0 <= i < j < |all| ==> all[i] != all[j]
  {
    var all := [Palette("green"), Palette("blue"), Palette("sky"), Palette("amber"),
                Palette("purple"), Palette("red"), Palette("orange"), Palette("slate")];
    assert all[0][3] == 'g' && all[1][3] == 'b' && all[2][3] == 's' && all[3][3] == 'a';
    assert all[4][3] == 'p' && all[5][3] == 'r' && all[6][3] == 'o' && all[7][3] == 's';
    assert all[2][4] == 'k' && all[7][4] == 'l';
  }
}
