/** The timetable page: a palette of classes dragged onto a grid of
    day-and-time cells, moved between cells, or dragged back to the palette
    to clear a cell. The schedule maps a cell id to the class placed there. */
module Timetable {
  import opened Common

  datatype ClassItem = ClassItem(id: string, name: string, color: string)

  /** The droppable id of the palette of available classes. */
  const PaletteId: string := "classes"

  const InitialClasses: seq<ClassItem> := [
    ClassItem("1", "Math", "bg-blue-500 text-blue-500"),
    ClassItem("2", "English", "bg-green-500 text-green-500"),
    ClassItem("3", "Science", "bg-yellow-500 text-yellow-500"),
    ClassItem("4", "History", "bg-red-500 text-red-500"),
    ClassItem("5", "Art", "bg-purple-500 text-purple-500"),
    ClassItem("6", "Music", "bg-pink-500 text-pink-500"),
    ClassItem("7", "PE", "bg-indigo-500 text-indigo-500"),
    ClassItem("8", "Geography", "bg-gray-500 text-gray-500")
  ]

  const Days: seq<string> := ["Monday", "Tuesday", "Wednesday", "Thursday", "Friday"]
  const TimesMorning: seq<string> := ["9AM", "10AM", "11AM"]
  const TimesAfternoon: seq<string> := ["1PM", "2PM"]

  /** The droppable id of the cell of a day and a time, `${day}-${time}`. */
  function CellId(day: string, time: string): string {
    Join([day, time], '-')
  }

  /** Only the occupied cells are keys; a cell set to `undefined` is read
      everywhere as empty, so it is modelled as an absent key. */
  type Schedule = map<string, ClassItem>

  /** Where a drag starts or ends: a droppable and the index in it. */
  datatype Location = Location(droppableId: string, index: int)

  /** A finished drag; a drop outside every droppable has no destination. */
  datatype DropResult = DropResult(source: Location, destination: Option<Location>)

  /** A drag from the palette names one of its classes by index. */
  predicate WellFormedDrop(result: DropResult) {
    result.source.droppableId == PaletteId ==> 0 <= result.source.index < |InitialClasses|
  }

  /** The schedule after a drop. `freshId` is the new instance's id. */
  function ScheduleAfterDrop(schedule: Schedule, result: DropResult, freshId: string): (r: Schedule)
    requires WellFormedDrop(result)
    // no destination, or palette to palette: nothing changes
    ensures result.destination.None? ==> r == schedule
    ensures (result.destination.Some? && result.source.droppableId == PaletteId
             && result.destination.value.droppableId == PaletteId) ==> r == schedule
    // only the cells at the two ends of the drag can change
    ensures result.destination.Some? ==>
      forall k :: (k == PaletteId || (k != result.source.droppableId && k != result.destination.value.droppableId)) ==>
        (k in r <==> k in schedule) && (k in r ==> r[k] == schedule[k])
    // palette to cell: the cell holds a copy of the class with the fresh id
    ensures (result.destination.Some? && result.source.droppableId == PaletteId
             && result.destination.value.droppableId != PaletteId) ==>
      var cls, dest := InitialClasses[result.source.index], result.destination.value.droppableId;
      dest in r && r[dest].id == freshId && r[dest].name == cls.name && r[dest].color == cls.color
    // cell to palette: the source cell is emptied
    ensures (result.destination.Some? && result.source.droppableId != PaletteId
             && result.destination.value.droppableId == PaletteId) ==>
      result.source.droppableId !in r
    // cell to cell: the destination takes what the source held, which is emptied
    ensures (result.destination.Some? && result.source.droppableId != PaletteId
             && result.destination.value.droppableId != PaletteId) ==>
      var src, dest := result.source.droppableId, result.destination.value.droppableId;
      (dest in r <==> src in schedule) && (src in schedule ==> r[dest] == schedule[src])
      && (src != dest ==> src !in r)
  {
    match result.destination
    case None => schedule
    case Some(destination) =>
      var src, dest := result.source.droppableId, destination.droppableId;
      if src == PaletteId && dest != PaletteId then
        schedule[dest := InitialClasses[result.source.index].(id := freshId)]
      else if src != PaletteId && dest == PaletteId then
        schedule - {src}
      else if src != PaletteId && dest != PaletteId then
        var updated := schedule - {src};
        if src in schedule then updated[dest := schedule[src]] else updated - {dest}
      else
        schedule
  }

  /** Dropping a class from the palette fills at most one more cell; no other
      drop fills more cells than before. */
  lemma OccupiedCount(schedule: Schedule, result: DropResult, freshId: string)
    requires WellFormedDrop(result)
    ensures |ScheduleAfterDrop(schedule, result, freshId)| <= |schedule| + 1
    ensures result.source.droppableId != PaletteId ==>
      |ScheduleAfterDrop(schedule, result, freshId)| <= |schedule|
  {
    if result.destination.Some? {
      var src, dest := result.source.droppableId, result.destination.value.droppableId;
      if src == PaletteId && dest != PaletteId {
        InsertCount(schedule, dest, InitialClasses[result.source.index].(id := freshId));
      } else if src != PaletteId {
        RemoveCount(schedule, src);
        var updated := schedule - {src};
        if dest != PaletteId && src in schedule {
          InsertCount(updated, dest, schedule[src]);
        } else if dest != PaletteId {
          RemoveCount(updated, dest);
        }
      }
    }
  }

  lemma InsertCount(m: Schedule, k: string, v: ClassItem)
    ensures |m[k := v]| <= |m| + 1
  {
    assert m[k := v].Keys == m.Keys + {k};
    assert |m.Keys + {k}| <= |m.Keys| + |{k}|;
  }

  lemma RemoveCount(m: Schedule, k: string)
    ensures |m - {k}| <= |m|
    ensures k in m ==> |m - {k}| == |m| - 1
  {
    assert (m - {k}).Keys == m.Keys - {k};
    if k !in m {
      assert m.Keys - {k} == m.Keys;
    }
  }

  /** Dropping a cell's class back on the same cell changes nothing. */
  lemma DropOnSameCell(schedule: Schedule, cell: string, index: int, destinationIndex: int, freshId: string)
    requires cell != PaletteId
    ensures ScheduleAfterDrop(schedule, DropResult(Location(cell, index), Some(Location(cell, destinationIndex))), freshId)
         == schedule
  {
    var r := ScheduleAfterDrop(schedule, DropResult(Location(cell, index), Some(Location(cell, destinationIndex))), freshId);
    assert r.Keys == schedule.Keys;
  }

  /** What a drag highlights while it hovers over a droppable. */
  datatype DragUpdate = DragUpdate(source: Location, destination: Option<Location>)

  /** `color.split(" ")[1]`, undefined when the colour has one word. */
  function SecondWord(s: string): Option<string> {
    var words := Split(s, ' ');
    if |words| >= 2 then Some(words[1]) else None
  }

  /** A colour of two space-free words has the second as its second word. */
  lemma SecondWordOf(first: string, second: string)
    requires ' ' !in first && ' ' !in second
    ensures SecondWord(first + [' '] + second) == Some(second)
  {
    SplitAfterWord(first, second, ' ');
    SplitWithoutSeparator(second, ' ');
  }

  /** The indices the page's markup gives its draggables: a palette class
      its place in the palette, and the class shown in a cell index 0. */
  predicate MarkupIndex(source: Location) {
    if source.droppableId == PaletteId then 0 <= source.index < |InitialClasses|
    else source.index == 0
  }

  /** The colour of a drag is looked up by the source index in the palette,
      so every drag that starts in a cell highlights with Math's colour,
      whatever class it moves. */
  lemma CellDragHighlightsFirstPaletteColour(update: DragUpdate)
    requires update.source.droppableId != PaletteId && MarkupIndex(update.source)
    ensures 0 <= update.source.index < |InitialClasses|
    ensures SecondWord(InitialClasses[update.source.index].color) == Some("text-blue-500")
  {
    assert InitialClasses[update.source.index].color == "bg-blue-500 text-blue-500";
    MathColourWords();
  }

  lemma MathColourWords()
    ensures SecondWord("bg-blue-500 text-blue-500") == Some("text-blue-500")
  {
    SecondWordOf("bg-blue-500", "text-blue-500");
    assert "bg-blue-500" + [' '] + "text-blue-500" == "bg-blue-500 text-blue-500";
  }

  /** `const [day, time] = destinationId.split("-")`; `time` is undefined when
      the id has no hyphen. */
  function HoveredCell(destinationId: string): (string, Option<string>) {
    var parts := Split(destinationId, '-');
    (parts[0], if |parts| >= 2 then Some(parts[1]) else None)
  }

  /** Hovering a droppable whose id has no hyphen, such as the palette,
      highlights that id as the day and no time. */
  lemma HoverWithoutHyphen(destinationId: string)
    requires '-' !in destinationId
    ensures HoveredCell(destinationId) == (destinationId, None)
  {
    SplitWithoutSeparator(destinationId, '-');
  }

  /** Splitting the id of a cell whose day and time hold no hyphen gives back
      the day and the time. */
  lemma CellIdRoundTrip(day: string, time: string)
    requires '-' !in day && '-' !in time
    ensures Split(CellId(day, time), '-') == [day, time]
    ensures HoveredCell(CellId(day, time)) == (day, Some(time))
  {
    SplitJoin([day, time], '-');
  }

  /** Every cell of the grid is identified by its id: hovering it highlights
      its own day and time, and two different cells have different ids. */
  lemma GridIdsRoundTrip(day: string, time: string, day': string, time': string)
    requires day in Days && day' in Days
    requires time in TimesMorning + TimesAfternoon && time' in TimesMorning + TimesAfternoon
    ensures HoveredCell(CellId(day, time)) == (day, Some(time))
    ensures CellId(day, time) == CellId(day', time') ==> day == day' && time == time'
  {
    GridNamesHaveNoHyphen(day, time);
    GridNamesHaveNoHyphen(day', time');
    CellIdRoundTrip(day, time);
    CellIdRoundTrip(day', time');
  }

  lemma GridNamesHaveNoHyphen(day: string, time: string)
    requires day in Days
    requires time in TimesMorning + TimesAfternoon
    ensures '-' !in day && '-' !in time
  {
    assert day == Days[0] || day == Days[1] || day == Days[2] || day == Days[3] || day == Days[4];
    var times := TimesMorning + TimesAfternoon;
    assert time == times[0] || time == times[1] || time == times[2] || time == times[3] || time == times[4];
  }

  /** The page's state: the schedule and the day, time and colour that the
      current drag highlights. */
  class TimetableBoard {
    var schedule: Schedule
    var hoveredDay: Option<string>
    var hoveredTime: Option<string>
    var hoveredColor: Option<string>

    constructor ()
      ensures schedule == map[]
      ensures hoveredDay.None? && hoveredTime.None? && hoveredColor.None?
    {
      schedule := map[];
      hoveredDay, hoveredTime, hoveredColor := None, None, None;
    }

    /** The end of a drag. A drop with no destination returns at once, so it
        leaves the highlight as it was too. */
    method OnDragEnd(result: DropResult, freshId: string)
      requires WellFormedDrop(result)
      modifies this
      ensures schedule == ScheduleAfterDrop(old(schedule), result, freshId)
      ensures result.destination.None? ==>
        hoveredDay == old(hoveredDay) && hoveredTime == old(hoveredTime) && hoveredColor == old(hoveredColor)
      ensures result.destination.Some? ==> hoveredDay.None? && hoveredTime.None? && hoveredColor.None?
    {
      if result.destination.None? {
        return;
      }
      var sourceId := result.source.droppableId;
      var destinationId := result.destination.value.droppableId;
      if sourceId == PaletteId && destinationId != PaletteId {
        var movedClass := InitialClasses[result.source.index];
        var newClassInstance := movedClass.(id := freshId);
        schedule := schedule[destinationId := newClassInstance];
      } else if sourceId != PaletteId && destinationId == PaletteId {
        var updated := schedule;
        updated := updated - {sourceId};
        schedule := updated;
      } else if sourceId != PaletteId && destinationId != PaletteId {
        var occupied := sourceId in schedule;
        var movedClass := if occupied then Some(schedule[sourceId]) else None;
        var updated := schedule;
        updated := updated - {sourceId};
        if movedClass.Some? {
          updated := updated[destinationId := movedClass.value];
        } else {
          updated := updated - {destinationId};
        }
        schedule := updated;
      }
      hoveredDay, hoveredTime, hoveredColor := None, None, None;
    }

    /** A drag moving over the page: the colour comes from the palette class
        at the source index, and a destination highlights its day and time. */
    method OnDragUpdate(update: DragUpdate)
      requires 0 <= update.source.index < |InitialClasses|
      modifies this
      ensures schedule == old(schedule)
      ensures hoveredColor == SecondWord(InitialClasses[update.source.index].color)
      ensures update.destination.Some? && update.destination.value.droppableId != "" ==>
        hoveredDay == Some(HoveredCell(update.destination.value.droppableId).0) &&
        hoveredTime == HoveredCell(update.destination.value.droppableId).1
      ensures (update.destination.None? || update.destination.value.droppableId == "") ==>
        hoveredDay == old(hoveredDay) && hoveredTime == old(hoveredTime)
    {
      var hoveredClass := InitialClasses[update.source.index];
      hoveredColor := SecondWord(hoveredClass.color);
      if update.destination.Some? && update.destination.value.droppableId != "" {
        var cell := HoveredCell(update.destination.value.droppableId);
        hoveredDay := Some(cell.0);
        hoveredTime := cell.1;
      }
    }
  }
}
