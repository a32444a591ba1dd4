# Calendar board: drag-and-drop reassignment of events

This project models the core of a small weekly calendar board written with React and
dnd-kit. Events are grouped by day in a store: an object from a `yyyy-MM-dd` date key to
that day's ordered list of events. When a card is dropped, `handleDragEnd` moves the event
to the day column it was dropped on. The store starts from a fixed seed of five events.

The model has four modules:

- `Wrappers` (`wrappers.dfy`): the `Option` type.
- `DateKeys` (`date_keys.dfy`): the `yyyy-MM-dd` keys that name day columns and index the
  store. A date is a (year, month, day) triple of the Gregorian calendar with a year from
  1 to 9999.
- `Events` (`events.dfy`): events, the store and the seed. The store is a map from date
  key to list, plus the key order that `Object.entries` visits (insertion order, for keys
  that are not array indices, as date keys are not). A new date key goes last in that
  order. The module also defines the store's invariant: no event id appears twice.
- `Calendar` (`calendar.dfy`): `handleDragEnd`. `FindDragged` is the `forEach` lookup
  loop. `HandleDragEnd` is the handler as an imperative method. Both are proved against
  the functions `Locate` and `Reassign`, and the lemmas prove the promised behaviour about
  those functions.

Behaviour that the model states:

- A drop with no target, or with an id that no date holds, leaves the store unchanged.
- The lookup visits every date in key order. The last date whose list holds the id wins,
  and within that list the first event with the id is the one moved.
- The source list loses every event with the id and keeps the rest in order.
- The dragged event becomes the last element of the target list. A target date with no
  list gets a new one-element list, and its key is appended to the key order.
- Every other date keeps its list.
- A drop keeps ids unique and keeps the number of events, so every store reachable from
  the seed has five events with distinct ids.

## Model

| member | source | states |
|---|---|---|
| Calendar.FindById | src/app/components/Calendar.tsx:45 | `find` by id answers nothing exactly when no event of the list has the id; otherwise it answers an event of the list with that id |
| Calendar.FindByIdIsFirst | src/app/components/Calendar.tsx:45 | `find` answers the event at the first index holding the id |
| Calendar.Locate | src/app/components/Calendar.tsx:42-50 | the lookup over the first `n` dates finds nothing exactly when none of their lists holds the id; a found date is a key of the store and its `find` gives the found event |
| Calendar.LocateIsLastMatch | src/app/components/Calendar.tsx:44-50 | a later match overwrites an earlier one: the lookup reports the last date in key order whose list holds the id |
| Calendar.FindDragged | src/app/components/Calendar.tsx:42-50 | the `forEach` loop ends with `draggedEvent`/`sourceDate` equal to what the lookup finds (null and `''` when it finds nothing) |
| Calendar.Without | src/app/components/Calendar.tsx:59 | the filter drops exactly as many events as carry the id |
| Calendar.WithoutMembers | src/app/components/Calendar.tsx:59 | an event is kept by the filter if and only if it is in the list and does not carry the id |
| Calendar.WithoutAppend | src/app/components/Calendar.tsx:59 | the filter works piecewise over concatenation, so the kept events stay in their original order |
| Calendar.WithoutOnly | src/app/components/Calendar.tsx:59 | when the id sits only at index `k`, the filter removes exactly that element |
| Calendar.CountOfWithout | src/app/components/Calendar.tsx:59 | after the filter the id occurs zero times and every other id as often as before |
| Calendar.MoveEvent | src/app/components/Calendar.tsx:55-70 | the state updater yields a well-formed store whose dates are the old ones plus the target; the key order is unchanged for an existing target and gains the target at the end otherwise |
| Calendar.Reassign | src/app/components/Calendar.tsx:34-71 | a drop turns a well-formed store into a well-formed store whose key order extends the old one by at most one key |
| Calendar.HandleDragEnd | src/app/components/Calendar.tsx:34-71 | the handler's early returns, shallow copy, filter, list creation and push produce exactly the transition `Reassign` |
| Calendar.ReassignAborts | src/app/components/Calendar.tsx:36-52 | with no drop target, or when no date holds the id, the store is returned unchanged |
| Calendar.LocateFindsEvent | src/app/components/Calendar.tsx:44-48 | the found event carries the dragged id and belongs to the list of the date it was found at |
| Calendar.ReassignEmptiesSource | src/app/components/Calendar.tsx:59 | after a move to another date, the source list is the old one filtered and holds no event with the id |
| Calendar.ReassignAppendsToTarget | src/app/components/Calendar.tsx:62-67 | the target list ends with the dragged event, preceded by the target's previous list (the filtered list when target and source coincide, nothing for a new date) |
| Calendar.ReassignCreatesTarget | src/app/components/Calendar.tsx:62-64 | a target date without a list ends with the one-element list of the dragged event, and its key is appended to the key order |
| Calendar.ReassignKeepsOthers | src/app/components/Calendar.tsx:56-66 | the dates are the old ones plus the target; every date other than source and target keeps its list; the key order is unchanged when the target already existed |
| Calendar.ReassignKeepsUnique | src/app/components/Calendar.tsx:44-67 | with unique ids before a drop, ids are unique after it, every id occurs as often as before, and the number of events is unchanged |
| Calendar.ReassignPlacesOnce | src/app/components/Calendar.tsx:44-67 | a dragged id that occurs once ends up exactly once in the store, in the target list, and under no other date |
| Calendar.LocateUnique | src/app/components/Calendar.tsx:44-50 | with unique ids, the lookup of an event's id finds that event at its own date |
| Calendar.ReassignToOwnDate | src/app/components/Calendar.tsx:59-66 | dropping an event on its own date moves it to the end of that date's list; the others keep their order and nothing else changes |
| Calendar.SelfMoveExample | src/app/components/Calendar.tsx:59-66 | the list `[e1, e2]` with `e1` dropped on its own date becomes `[e2, e1]` |
| Calendar.Replay | src/app/components/Calendar.tsx:12-71 | the store after a session of drops, starting from the state set at line 12, is well formed; its key order extends the starting one by at most one key per drop |
| Calendar.ReplayKeepsUnique | src/app/components/Calendar.tsx:34-71 | any sequence of drops keeps ids unique and keeps the number of events |
| Calendar.ReachableFromSeed | src/app/data/events.ts:3-49 | every store reached from the seed by drops has unique ids and exactly five events |
| Calendar.MoveToOtherDateExample | src/app/components/Calendar.tsx:56-66 | dropping the only event `e1` of a date on a date holding `[e2]` leaves `[]` and `[e2, e1]`, and changes no other date and not the key order |
| Calendar.SeedMoveExample | src/app/components/Calendar.tsx:56-66 | from the seed, dropping `event-1` on 2025-04-01 leaves 2025-03-31 empty and 2025-04-01 as `[event-2, event-1]`; other dates and the key order are unchanged |
| Events.SeedLayout | src/app/data/events.ts:3-49 | the literal's layout: the five date keys `2025-03-31` to `2025-04-04`, distinct and in the order written, each holding exactly the one event written under it (`Events.Seed` applies it to the five events) |
| Events.EventsOn | src/app/components/Calendar.tsx:123 | a date the store has shows exactly its list; a date it lacks shows nothing; a column never shows more events than the store holds |
| Events.SeedShape | src/app/data/events.ts:3-49 | the seed has five distinct date keys, each holding exactly one event, so five events in all |
| Events.SeedUnique | src/app/data/events.ts:4-48 | the seed's ids `event-1` to `event-5` are pairwise distinct, so the seed satisfies the store's invariant |
| Events.SeedKeysAreDates | src/app/data/events.ts:4-40 | every seed key is a `yyyy-MM-dd` key of a real date, and formatting that date gives the key back |
| DateKeys.DateKey | src/app/components/Calendar.tsx:117-123 | `format(date, 'yyyy-MM-dd')` of a date gives ten characters: four digits, a dash, two digits, a dash, two digits |
| DateKeys.DateKeyParses | src/app/components/Calendar.tsx:117-123 | formatting a date as `yyyy-MM-dd` gives a date key whose fields read back as that date |
| DateKeys.KeyIsFormatted | src/app/components/Calendar.tsx:117-123 | every date key is the `yyyy-MM-dd` formatting of the date it names, so formatting is a bijection between the dates of years 1 to 9999 and the keys |

## Left out

- React state plumbing is left out: `useState`, the `setEvents` updater and re-rendering. The lookup reads `events` (line 44) and the updater reads `prev` (line 55). The model treats both as the same store value.
- In-place aliasing is left out. After the shallow copy at line 56, the `push` at line 66 mutates the target array that is shared with the previous state. Under React StrictMode the updater may also run twice. The model treats the store as a value and each drop as one atomic transition.
- dnd-kit is left out: the sensors, `DndContext`, `DragOverlay` and `useDraggable` in the card component. A drop is modelled only as the dragged id and an optional target key. No droppable is registered in this version of the board, so whether the library ever reports `over` is library behaviour. The model accepts any target.
- The library types `active.id` and `over.id` as string or number, and lines 38-39 cast them to string. The model takes strings.
- `getVisibleDates` and `handleDateChange` (lines 73-83) are left out. They do week arithmetic on JavaScript `Date` values and only choose which columns are shown. Time zones, locale week starts and `Date` itself are not modelled. The date-key module models only the `yyyy-MM-dd` key text.
- The resize listener (lines 25-32) is browser I/O and is left out.
- Rendering is left out: the event card, the detail dialog, animations and the Tailwind configuration.
- Event display fields (title, description, image URL, time) are kept only as opaque strings. The seed copies them verbatim.
- src/app/types/event.ts is not part of this model. The `Event` record is reconstructed from the seed's fields.
- Target deduplication: the handler does not filter the id out of the target list before the push. The model follows the code: filter the source, then push. When ids are unique, `Calendar.ReassignPlacesOnce` shows that the dragged id still ends up exactly once.
- The `if (draggedEvent)` test at line 65 always holds at that point, because line 52 has already returned when nothing was found. The model has no branch for it.
- `!newEvents[targetDate]` at line 62 is true, for a date key, only when the key is absent, because every present key holds an array (truthy even when empty). The model tests whether the key is absent.
- Calendar.Reassign, Calendar.ReassignCreatesTarget: the target is taken to be a date key. For a target naming an inherited property of JavaScript objects (`constructor`, `toString`, `__proto__`), line 62 finds a truthy value, creates no list, and the `push` at line 66 throws a TypeError; the model creates a one-element list instead. For a target that is an array-index string such as `7`, `Object.entries` visits that key before the date keys; the model appends it to the key order.
- DateKeys.DateKeyParses, DateKeys.KeyIsFormatted: year 0 is not a date of the model. `yyyy` prints the era year, so a JavaScript date in year 0 (1 BC) formats as `0001`, the same as year 1; formatting is not one-to-one there, and years outside 1 to 9999 are not modelled.
- Calendar.Reassign, Calendar.MoveEvent: their own contracts state only that the result is well formed, its set of dates and its key order. What the drop does to the source and target lists is stated by `Calendar.ReassignAborts`, `Calendar.ReassignEmptiesSource`, `Calendar.ReassignAppendsToTarget`, `Calendar.ReassignCreatesTarget`, `Calendar.ReassignKeepsOthers` and `Calendar.MoveEventFrame`.
