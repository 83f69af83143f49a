# FutureBoard site: the page logic, modelled and proved in Dafny

The FutureBoard site is a Next.js application. This project models the logic of six of its parts, leaving their rendering and I/O aside:

- **Bill ledger** (`bill.dfy`, module `Bill`). A roster of people and a list of orders. Each order is split equally among the people selected for it. There is a pending selection for the next order, and a summary of what each person pays.
- **Timetable** (`timetable.dfy`, module `Timetable`). A palette of eight classes. They are dragged onto a five-day grid of time slots, moved between slots, or dragged back to the palette to clear a slot. While a class is dragged, a day, a time and a colour are highlighted.
- **Request middleware** (`middleware.dfy`, module `Middleware`). Requests for the split-bill host are rewritten under `/splitbill`, except API routes. The path matcher decides which requests reach the middleware at all.
- **Navigation bar** (`navbar.dfy`, module `Navbar`). Section ids become button labels. The bar becomes visible once the page is scrolled to the second section.
- **Condo gallery** (`gallery.dfy`, module `Gallery`). Ten images in three room categories. A category filter, and a main image chosen by index among the filtered images, clamped into range.
- **Step navigator** (`how_we_work.dfy`, module `HowWeWork`). Eight steps, moved by previous and next arrows or chosen by their title buttons.

`common.dfy` (module `Common`) holds the string operations the pages rely on:

- JavaScript's `split` on a one-character separator, and `join`;
- `startsWith`;
- `NoDuplicates`;
- an `Option` type.

Four page components are classes (`BillPage`, `TimetableBoard`, `GalleryState`, `StepNavigator`). Their fields are the component's state, and each event handler is a method whose `ensures` gives the whole new state. Where the new state is computed by a function of its own (`RemoveAt`, `Toggle`, `ScheduleAfterDrop`, `PrevStep`, `NextStep`), the page's promises are proved as lemmas about that function. The Navbar's one piece of state, its visibility, starts as `InitiallyVisible` (false), and the scroll handler is the function `OnScroll` of the old value.

What the code does, and does not do, that a reader might expect otherwise:

- The code does not reject a duplicate name in the roster. `BillPage.AddPerson` appends any non-empty name.
- Removing a person does not remove their name from existing orders or from the pending selection. `BillPage.RemovePerson` changes the roster only. `Bill.RemovedPersonLeavesGap` shows that, on a consistent roster (distinct names, every selection drawn from the roster), the summary then falls short of "Total Orders" by the removed person's total.
- Orders carry no payer. The page computes no balances and no settlement plan, so none is modelled.
- The order amount is not checked to be positive. Any amount that parses is accepted.

## Model

| member | source | states |
|---|---|---|
| Common.Split | app/components/Navbar.tsx:40 | `split` with a one-character separator yields at least one part, and no part contains the separator |
| Common.Join | app/components/Navbar.tsx:40 | `join` with a one-character separator; its meaning is given by `Common.JoinSplit` and `Common.SplitJoin`, which make it the inverse of `Split` |
| Common.StartsWith | middleware.ts:8 | `startsWith`; `Middleware.LiteralPattern` relates it to the matcher's prefix test, and `Middleware.Route` uses it for the `/api/` test |
| Common.JoinSplit | app/components/Navbar.tsx:40 | joining the parts of a split with the same separator gives back the original string |
| Common.SplitJoin | app/timetable/page.tsx:159 | splitting a join of separator-free parts (at least one) gives back exactly those parts |
| Common.SplitWithoutSeparator | app/timetable/page.tsx:159 | a string without the separator splits into itself alone |
| Common.SplitAfterWord | app/components/Navbar.tsx:40 | a word followed by the separator and a rest splits into that word followed by the parts of the rest |
| Common.SplitKeepsAbsentChar | app/components/Navbar.tsx:40 | a character absent from the string is absent from every part of its split |
| Bill.RemoveAtSlices | app/page.tsx:33-36 | removing by index drops exactly the element at that index and keeps the rest in order; an index outside the list removes nothing |
| Bill.RemoveAt | app/page.tsx:34 | `filter((_, i) => i !== index)`, used for both people and orders (also line 66); `Bill.RemoveAtSlices` gives its contents |
| Bill.RemoveName | app/page.tsx:59 | filtering a name out never lengthens the list |
| Bill.RemoveNameAbsent | app/page.tsx:59 | filtering out a name that is not in the list leaves it unchanged |
| Bill.RemoveNameMembership | app/page.tsx:59 | after filtering, a name is present exactly when it was present and is not the removed name |
| Bill.RemoveNameDistinct | app/page.tsx:59 | filtering keeps a duplicate-free list duplicate-free and removes exactly one entry when the name was present |
| Bill.RemoveNameAppend | app/page.tsx:59 | filtering distributes over concatenation |
| Bill.Toggle | app/page.tsx:57-61 | the selection toggle; `Bill.ToggleMembership`, `Bill.ToggleNoDuplicates` and `Bill.ToggleTwice` give its meaning |
| Bill.ToggleMembership | app/page.tsx:56-62 | after a toggle the toggled name is selected exactly when it was not, and every other name keeps its state |
| Bill.ToggleNoDuplicates | app/page.tsx:56-62 | toggling never introduces a repeated name into the selection |
| Bill.ToggleTwice | app/page.tsx:56-62 | toggling an unselected name twice restores the selection exactly |
| Bill.Share | app/page.tsx:232-235 | one order's contribution to a person's total, dividing only when the person is among the order's people; `Bill.ShareIsEqualPart` gives its meaning |
| Bill.ShareIsEqualPart | app/page.tsx:232-235 | a person outside the order pays 0 for it; a person in it pays a part that, times the number of its people, is its amount |
| Bill.PersonTotal | app/page.tsx:231-236 | a person's total as the left-to-right `reduce`; `Bill.PersonTotalConcat`, `Bill.PersonTotalWithoutOrders`, `Bill.PersonTotalBounds`, `Bill.RemoveOrderTotals` and `Bill.Conservation` give its meaning |
| Bill.TotalOrders | app/page.tsx:228 | the "Total Orders" `reduce`; `Bill.TotalOrdersConcat`, `Bill.RemoveOrderTotals` and `Bill.Conservation` give its meaning |
| Bill.PersonTotals | app/page.tsx:230-236 | the summary has one total per roster entry, in roster order, each that person's total over all orders |
| Bill.Names | app/page.tsx:230 | the roster's names, one per entry, in order |
| Bill.PersonTotalConcat | app/page.tsx:231-236 | a person's total over two lists of orders is the sum of their totals over each list |
| Bill.TotalOrdersConcat | app/page.tsx:228 | the "Total Orders" figure of two lists of orders is the sum of the two figures |
| Bill.PersonTotalWithoutOrders | app/page.tsx:232-235 | a person named in no order pays 0 |
| Bill.PersonTotalBounds | app/page.tsx:228-236 | with non-negative amounts, a person's total lies between 0 and the "Total Orders" figure |
| Bill.RemoveAtKeepsSplits | app/page.tsx:65-67 | after removing an order, every remaining order is still split between at least one person, each named once |
| Bill.RemoveOrderTotals | app/page.tsx:65-67 | removing an order subtracts its equal share from each selected person's total and its amount from "Total Orders" |
| Bill.CountAllSelected | app/page.tsx:233 | with distinct roster names, a duplicate-free selection of roster names counts each selected person exactly once |
| Bill.ShareSumIsCount | app/page.tsx:233 | the shares of one order over the roster sum to the number of selected roster people times the equal share |
| Bill.OrderSharesAddUp | app/page.tsx:232-233 | on a roster with distinct names, where the order is split between distinct roster names, its equal shares over the roster add up to its amount |
| Bill.SumTotalsAppend | app/page.tsx:231-236 | adding one order adds its shares over the roster to the sum of the person totals |
| Bill.Conservation | app/page.tsx:228-236 | when the roster names are distinct, and every order is split between distinct roster names, the person totals add up to "Total Orders" |
| Bill.SumRemoveAt | app/page.tsx:230-236 | removing one entry from a list of totals takes exactly that entry off their sum |
| Bill.RemovePersonTotals | app/page.tsx:33-36 | removing person `index` removes exactly their line from the summary, leaves every other person's total unchanged, and takes their total off the summed totals |
| Bill.RemovedPersonLeavesGap | app/page.tsx:33-36 | on a consistent roster, after removing any person the summary adds up to "Total Orders" minus that person's total, because the orders keep their name |
| Bill.RemovedPersonExample | app/page.tsx:33-36 | an instance: 100 split between A and B; after B is removed the summary adds up to 50 |
| Bill.BillPage.constructor | app/page.tsx:6-19 | the page starts with no people, no orders and an empty selection |
| Bill.BillPage.AddPerson | app/page.tsx:21-31 | a non-empty name is appended with value 0, and an empty name changes nothing; orders and selection are untouched |
| Bill.BillPage.RemovePerson | app/page.tsx:33-36 | the roster loses exactly the entry at the index; orders and selection are untouched |
| Bill.BillPage.AddOrder | app/page.tsx:39-53 | the order is added exactly when name, amount and selection are all present; it carries a copy of the selection, which is then cleared; otherwise nothing changes |
| Bill.BillPage.TogglePersonSelection | app/page.tsx:56-62 | the selection becomes its toggle by the name, and the invariant of no repeats is kept |
| Bill.BillPage.RemoveOrder | app/page.tsx:65-67 | the order list loses exactly the order at the index; every order stays split between at least one person |
| Bill.BillPage.PerPerson | app/page.tsx:207 | the per-person share times the number of people equals the order's amount, so there is never a division by zero |
| Bill.BillPage.Summary | app/page.tsx:228-242 | one line per person, line k being person k's total over all orders, and on a consistent roster the lines add up to the bill |
| Bill.ConservationWhenConsistent | app/page.tsx:228-236 | conservation of the bill for every page state whose orders match the roster |
| Timetable.ScheduleAfterDrop | app/timetable/page.tsx:111-143 | the state change for each kind of drop, per case (see "Timetable drops" below) |
| Timetable.CellId | app/timetable/page.tsx:49 | the `${day}-${time}` droppable id; `Timetable.CellIdRoundTrip` and `Timetable.GridIdsRoundTrip` give its meaning |
| Timetable.HoveredCell | app/timetable/page.tsx:159 | the `[day, time]` destructuring of a split id; `Timetable.HoverWithoutHyphen` and `Timetable.CellIdRoundTrip` give its meaning |
| Timetable.SecondWord | app/timetable/page.tsx:155 | `color.split(" ")[1]`; `Timetable.SecondWordOf` gives its meaning |
| Timetable.SecondWordOf | app/timetable/page.tsx:155 | a colour made of two space-free words has the second word as its `[1]` part |
| Timetable.CellDragHighlightsFirstPaletteColour | app/timetable/page.tsx:59 | for any drag whose source is a slot, with the index 0 the slot's markup gives it (`MarkupIndex`), the colour lookup is in range and is Math's `text-blue-500`, whatever class is dragged |
| Timetable.OccupiedCount | app/timetable/page.tsx:118-142 | a drop from the palette fills at most one more slot; any other drop never adds an occupied slot |
| Timetable.DropOnSameCell | app/timetable/page.tsx:133-142 | dropping a slot's class back onto the same slot, at any index, leaves the schedule unchanged |
| Timetable.HoverWithoutHyphen | app/timetable/page.tsx:157-162 | hovering a droppable whose id has no hyphen, such as the palette, highlights that id as the day and no time |
| Timetable.CellIdRoundTrip | app/timetable/page.tsx:49 | the id built from a day and a time without hyphens splits back into that day and that time |
| Timetable.GridIdsRoundTrip | app/timetable/page.tsx:97-100 | every grid slot's id names its own day and time, and two different slots have different ids |
| Timetable.TimetableBoard.constructor | app/timetable/page.tsx:103-106 | an empty schedule and no highlight |
| Timetable.TimetableBoard.OnDragEnd | app/timetable/page.tsx:111-148 | the schedule becomes its drop result; a drop with a destination clears the highlight, and one without leaves everything as it was |
| Timetable.TimetableBoard.OnDragUpdate | app/timetable/page.tsx:150-163 | the colour becomes the second word of the colour of the palette class at the source index (Math's for every drag out of a slot); a non-empty destination id sets the day and time from its hyphen parts; the schedule is unchanged |
| Middleware.Route | middleware.ts:3-18 | only the split-bill host is rewritten, never an `/api/` path; a rewrite is `/splitbill` followed by exactly the requested path |
| Middleware.RewriteIsNotApi | middleware.ts:6-13 | a rewritten page path never lands on an API path |
| Middleware.RewriteInjective | middleware.ts:13 | two rewritten requests land on the same path exactly when they asked for the same path |
| Middleware.Handle | middleware.ts:3-22 | a path the matcher refuses is passed through; a matched path is answered exactly as `Route` answers it, so a rewrite happens only for matched paths on the split-bill host |
| Middleware.Matches | middleware.ts:21 | the paths the matcher admits; `Middleware.MatcherExcludesPrefixes` and `Middleware.MatcherExamples` give its meaning |
| Middleware.MatcherExcludesPrefixes | middleware.ts:21 | on ordinary characters, the matcher refuses exactly the paths starting with `/_next/static` or `/_next/image`, or with `/favicon` plus any one character plus `ico`; in particular it refuses `/favicon.ico` |
| Middleware.LiteralPattern | middleware.ts:21 | a pattern without `.` matches a string exactly when the string starts with the pattern's text |
| Middleware.MatcherExamples | middleware.ts:21 | `/favicon.ico`, `/favicon-ico` and the `_next` asset paths are refused, while `/`, `/api/share` and `/favicon` are matched |
| Navbar.LabelMatchesReference | app/components/Navbar.tsx:40 | the split, capitalize and join label equals a one-pass reference: hyphens become spaces and the letter starting each word is upper-cased |
| Navbar.Label | app/components/Navbar.tsx:40 | split on `-`, capitalise each word, join with spaces; `Navbar.LabelMatchesReference`, `Navbar.LabelShape`, `Navbar.LabelSpacesAreHyphens` and `Navbar.LabelWords` give its meaning |
| Navbar.Capitalize | app/components/Navbar.tsx:40 | `word.charAt(0).toUpperCase() + word.slice(1)`; `Navbar.LabelShape` gives its effect inside the label |
| Navbar.ToUpper | app/components/Navbar.tsx:40 | the result is never a lower-case ASCII letter; a lower-case letter becomes an upper-case one, and every other character is kept |
| Navbar.ToUpperAlphabet | app/components/Navbar.tsx:40 | each lower-case letter becomes the upper-case letter at the same place of the alphabet |
| Navbar.LabelShape | app/components/Navbar.tsx:40 | the label has the id's length, and each of its characters is the reference character at that position |
| Navbar.LabelSpacesAreHyphens | app/components/Navbar.tsx:40 | the label has no hyphen and the id's length; for an id without spaces, the label has a space exactly where the id has a hyphen |
| Navbar.LabelWords | app/components/Navbar.tsx:40 | the label's words are the id's hyphen-separated words, each capitalised |
| Navbar.SectionLabels | app/components/Navbar.tsx:32-40 | the four section buttons read "How We Work", "Our Projects", "About Us" and "Team" |
| Navbar.OnScroll | app/components/Navbar.tsx:12-18 | with no second section the visibility is unchanged; otherwise the bar is visible exactly when the scroll offset has reached that section's top |
| Navbar.VisibleFurtherDown | app/components/Navbar.tsx:16 | once visible at an offset, the bar stays visible at any offset further down |
| Navbar.HiddenAboveSection | app/components/Navbar.tsx:9-17 | the bar starts hidden and stays hidden while the section is missing; above the section's top a scroll hides it whatever it was |
| Navbar.HiddenFurtherUp | app/components/Navbar.tsx:13-15 | once a scroll hides the bar, it stays hidden while the page scrolls back up |
| Gallery.Tag | app/moolin/page.tsx:16-20 | each source name becomes an image of the given category, in order |
| Gallery.AllImages | app/moolin/page.tsx:16-20 | the gallery's images; `Gallery.AllImagesLayout` gives its contents |
| Gallery.FilteredImages | app/moolin/page.tsx:22-24 | the images shown for a category; `Gallery.FilteredByButton` and `Gallery.FilteredIsCategorySubsequence` give its meaning |
| Gallery.FilterCategory | app/moolin/page.tsx:22-24 | a filtered list is no longer than the input, and all its images have the asked category |
| Gallery.FilterMembership | app/moolin/page.tsx:24 | an image is kept exactly when it is in the list and has the asked category |
| Gallery.FilterIsSubsequence | app/moolin/page.tsx:24 | filtering keeps the gallery order of the images it keeps |
| Gallery.FilterConcat | app/moolin/page.tsx:24 | filtering a concatenation filters each part |
| Gallery.FilterTaggedSame | app/moolin/page.tsx:16-24 | filtering a group tagged with the asked category keeps all of it |
| Gallery.FilterTaggedOther | app/moolin/page.tsx:16-24 | filtering a group tagged with another category keeps none of it |
| Gallery.FilterThree | app/moolin/page.tsx:16-24 | filtering the three concatenated groups filters each group in turn |
| Gallery.AllImagesLayout | app/moolin/page.tsx:10-20 | the gallery has ten images: the two bedroom, four living-room and four common-area images, in that order |
| Gallery.FilteredByButton | app/moolin/page.tsx:73-76 | the "all" button shows every image, and each other button shows exactly its category's images |
| Gallery.FilteredIsCategorySubsequence | app/moolin/page.tsx:22-24 | for a category other than "all", the shown images are the images of that category, in gallery order |
| Gallery.ClampIndex | app/moolin/page.tsx:27 | a valid index is kept, one past the end is pulled to the last image, the result is in range whenever the list is non-empty, and it is 0 for an empty list |
| Gallery.MainImage | app/moolin/page.tsx:92-94 | no main image exactly when the filtered list is empty; otherwise a filtered image, the one at the index when it is in range |
| Gallery.SelectionShowsImage | app/moolin/page.tsx:29-31 | after a category change the first filtered image is shown, and after a thumbnail click the clicked image |
| Gallery.GalleryState.constructor | app/moolin/page.tsx:7-8 | the page starts on image 0 of "all" |
| Gallery.GalleryState.OnCategory | app/moolin/page.tsx:29-31 | the category is set, and the image index resets to 0 exactly when the category changed |
| Gallery.GalleryState.OnThumbnail | app/moolin/page.tsx:107 | the index becomes the clicked thumbnail's, and the category is kept |
| Gallery.GalleryState.ShownImage | app/moolin/page.tsx:92-94 | no image is shown exactly when the selected filter is empty; a shown image is one of the filter's, and for an index inside the filter it is the image at that index |
| HowWeWork.PrevStep | app/components/HowWeWork.tsx:146 | never below 0; one step back from any step after the first, no-op on the first, in range if started in range |
| HowWeWork.NextStep | app/components/HowWeWork.tsx:153 | never past the last step; one step on from any step before the last, no-op on the last, in range if started in range |
| HowWeWork.Apply | app/components/HowWeWork.tsx:86-153 | one click: a rendered click keeps an in-range step in range, and a title click selects its index |
| HowWeWork.Run | app/components/HowWeWork.tsx:86-153 | the step after a sequence of clicks; `HowWeWork.RunStaysInRange` gives its meaning |
| HowWeWork.RunStaysInRange | app/components/HowWeWork.tsx:86-153 | any sequence of arrow and title clicks keeps an in-range selection in range, so the description lookup always finds a step |
| HowWeWork.InitialRunStaysInRange | app/components/HowWeWork.tsx:5-153 | from the initial step 0, every click sequence selects one of the eight steps |
| HowWeWork.PrevThenNext | app/components/HowWeWork.tsx:146-153 | previous then next returns to any step after the first; next then previous returns to any step before the last |
| HowWeWork.StepNavigator.constructor | app/components/HowWeWork.tsx:5 | the first step is selected |
| HowWeWork.StepNavigator.SelectedTitle | app/components/HowWeWork.tsx:99 | the displayed step is one of the steps |
| HowWeWork.StepNavigator.OnPrev | app/components/HowWeWork.tsx:146 | the selection becomes the previous step and stays in range |
| HowWeWork.StepNavigator.OnNext | app/components/HowWeWork.tsx:153 | the selection becomes the next step and stays in range |
| HowWeWork.StepNavigator.OnSelect | app/components/HowWeWork.tsx:86 | the selection becomes the clicked title's index |

### Timetable drops

`Timetable.ScheduleAfterDrop` states each case of the drop handler:

- A drop with no destination, or from the palette onto the palette, changes nothing.
- A drop from the palette onto a slot puts a copy of the class there, with the fresh id. Any class already in the slot is replaced.
- A drop from a slot onto the palette empties the slot.
- A drop from a slot onto a slot moves the class that was there. A move from an empty slot empties the destination too.
- In every case, the palette id and every id other than the two ends of the drag keep their entries.

## Left out

- BillPage.AddOrder: `newOrderValue` is the outcome of `parseFloat` on a non-empty amount field, and `None` when the field is empty. A non-empty field that does not parse (`NaN` in the page) is not modelled, because amounts are exact reals.
- Amounts are exact reals. Floating-point rounding in the division and the sums, and the `toFixed(2)` display, are not modelled. In particular, `Bill.Conservation` holds exactly only in the model.
- BillPage.Summary: the page shows the summary only while there is at least one order. The model defines the totals for every state.
- `BillPage.AddPerson`: the `console.log` of the draft fields is output only, and is not modelled.
- The draft input fields (`newName`, `newValue`, `newOrder`, `newOrderValue`) are not modelled as state. They are parameters of the handlers, and clearing them after a submit is not modelled. `newValue` is never read into the roster, whose values are always 0.
- `activeTab`, `selectedDay`, the labels, colours and class names, images, and every other display string are not modelled.
- Timetable: `generateUniqueId` reads the clock and a random source, so its result is the parameter `freshId` of `OnDragEnd`.
- Timetable: a slot set to `undefined` is modelled as an absent key. The page treats both as an empty slot.
- Timetable.TimetableBoard.OnDragUpdate uses the source index as an index into the palette, as the page does for every drag. The drag library gives a slot's class index 0, which is in range, so the model requires an index into the palette.
- Timetable.ScheduleAfterDrop and Timetable.TimetableBoard.OnDragEnd require `WellFormedDrop`: a drag from the palette carries an index into the palette. The page guarantees this, because the palette's draggables take their index from `initialClasses.map` (app/timetable/page.tsx:180-184), so the model does not cover an out-of-range palette index.
- The drag library itself is left out: its events are the handlers' parameters.
- Middleware: the URL construction and the framework's `NextResponse` are left out. A response is `Next` or `Rewrite` of a path.
- Middleware: the regular-expression engine is not modelled. The matcher is stated as the anchored language of its pattern.
- Navbar.OnScroll: the DOM lookup of the second section and the scroll listener registration are not modelled. Instead, the section's top offset is an optional parameter and the scroll offset a real.
- Navbar.ToUpper: upper-casing is modelled for ASCII letters only. The section ids are ASCII.
- Gallery: the call and chat buttons open external links, and are left out.
- HowWeWork: the step images and descriptions are display content. Only the titles are modelled, which fixes the number of steps.
- Concurrency, React's batching of state updates, and rendering are not modelled. Each handler applies to the state it is called on.
