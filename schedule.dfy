/** The fixed shift table of the clinic and the remaining-time rule for one
    shift window. Times of day are decimal hours: 13:30 is 13.5. */
module Schedule {

  /** The six assignment slots: three for a normal day, three for Thursday. */
  datatype Slot = Opening | Mid | Close | Thursday1 | Thursday2 | Thursday3

  /** A shift's opening hours, in decimal hours. */
  datatype Window = Window(start: real, end: real)

  /** One row of the calculation's shift list: display label, assignment
      key and window. */
  datatype Shift = Shift(name: string, key: Slot, window: Window)

  /** The shift windows of the selected day type. */
  function ShiftTimes(isThursday: bool): (m: map<Slot, Window>)
    ensures isThursday ==> m.Keys == {Thursday1, Thursday2, Thursday3}
    ensures !isThursday ==> m.Keys == {Opening, Mid, Close}
    ensures forall s :: s in m ==> m[s].start < m[s].end
  {
    if isThursday then
      map[Thursday1 := Window(9.0, 19.0), Thursday2 := Window(9.0, 19.0),
          Thursday3 := Window(9.0, 19.0)]
    else
      map[Opening := Window(8.0, 18.0), Mid := Window(9.0, 19.0),
          Close := Window(10.0, 20.0)]
  }

  /** The shifts the capacity calculation walks, in order. */
  function Shifts(isThursday: bool): (r: seq<Shift>)
    ensures |r| == 3
    ensures forall i :: 0 <= i < |r| ==>
              r[i].key in ShiftTimes(isThursday) && r[i].window == ShiftTimes(isThursday)[r[i].key]
    ensures forall i, j :: 0 <= i < j < |r| ==> r[i].key != r[j].key
  {
    var times := ShiftTimes(isThursday);
    if isThursday then
      [Shift("Shift 1", Thursday1, times[Thursday1]),
       Shift("Shift 2", Thursday2, times[Thursday2]),
       Shift("Shift 3", Thursday3, times[Thursday3])]
    else
      [Shift("Opening", Opening, times[Opening]),
       Shift("Mid", Mid, times[Mid]),
       Shift("Close", Close, times[Close])]
  }

  /** The hour the clinic closes on the selected day type. */
  function LatestShiftEndTime(isThursday: bool): real {
    if isThursday then 19.0 else 20.0
  }

  /** The closing hour is the latest end in the shift table. */
  lemma LatestShiftEndIsMaxEnd(isThursday: bool)
    ensures forall s :: s in ShiftTimes(isThursday) ==>
              ShiftTimes(isThursday)[s].end <= LatestShiftEndTime(isThursday)
    ensures exists s :: s in ShiftTimes(isThursday) &&
              ShiftTimes(isThursday)[s].end == LatestShiftEndTime(isThursday)
  {
    if isThursday {
      assert ShiftTimes(isThursday)[Thursday1].end == 19.0;
    } else {
      assert ShiftTimes(isThursday)[Close].end == 20.0;
    }
  }

  /** The clock reading as decimal hours. */
  function DecimalTime(hour: int, minute: int): (t: real)
    ensures 0 <= minute < 60 ==> hour as real <= t < hour as real + 1.0
  {
    hour as real + minute as real / 60.0
  }

  /** Hours a provider still works in the window `shiftStart`..`shiftEnd`:
      the whole window before it starts, the time to its end while it
      runs, nothing once it is over. */
  function RemainingHours(currentHour: int, currentMinute: int, shiftStart: real, shiftEnd: real): (r: real)
    ensures DecimalTime(currentHour, currentMinute) < shiftStart ==> r == shiftEnd - shiftStart
    ensures shiftStart <= DecimalTime(currentHour, currentMinute) ==>
              r == if shiftEnd > DecimalTime(currentHour, currentMinute)
                   then shiftEnd - DecimalTime(currentHour, currentMinute) else 0.0
    ensures shiftStart <= shiftEnd ==> 0.0 <= r <= shiftEnd - shiftStart
  {
    var t := DecimalTime(currentHour, currentMinute);
    if t < shiftStart then shiftEnd - shiftStart
    else if t >= shiftEnd then 0.0
    else
      var remaining := shiftEnd - t;
      if 0.0 > remaining then 0.0 else remaining
  }

  /** Within a well-formed window the result is zero exactly when the window
      is over. */
  lemma RemainingHoursZeroIffOver(currentHour: int, currentMinute: int, shiftStart: real, shiftEnd: real)
    requires shiftStart < shiftEnd
    ensures RemainingHours(currentHour, currentMinute, shiftStart, shiftEnd) == 0.0
            <==> DecimalTime(currentHour, currentMinute) >= shiftEnd
  {
  }

  /** A later clock never leaves more hours in the same window. */
  lemma RemainingHoursNonIncreasing(h1: int, m1: int, h2: int, m2: int, shiftStart: real, shiftEnd: real)
    requires shiftStart <= shiftEnd
    requires DecimalTime(h1, m1) <= DecimalTime(h2, m2)
    ensures RemainingHours(h2, m2, shiftStart, shiftEnd) <= RemainingHours(h1, m1, shiftStart, shiftEnd)
  {
  }
}
