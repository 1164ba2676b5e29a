# Turn Off Display: xinput device filter and aggregate-menu width

A Dafny model of the two self-contained pieces of logic in the GNOME Shell
extension "Turn off Display":

- **The xinput helper** (`xinput_mouse.js`). It reads the text that
  `xinput --list` prints. It keeps the lines that describe a slave pointer
  other than the XTEST virtual pointer and cuts the device id out of each one
  (`get_pointer_ids`). `get_mouse_ids` also drops built-in devices: a line is
  dropped when its lower-cased text contains any entry of `exclude_devices`
  (touchpads, trackpoints, touch screens, pens, ...). `switch_devices` turns
  an id list into `xinput --enable <id>` or `xinput --disable <id>` commands.
  `xinput_installed` reports whether listing devices worked at all.
- **The aggregate-menu width adjuster** (`css_adjust.js`). The system
  menu's action-button row fits six buttons at the menu's original width, and
  each further button widens the menu by one button width.
  `handle_aggregate_menu` is a three-mode state machine over two signal
  handles and the menu width:
  - `auto` adjusts the width once, then follows button additions and removals.
  - `fixed` sets a width chosen by the user, but only one at least the original width.
  - `off` restores the original width.

Files:

- `wrappers.dfy`: `Option` and `Result`.
- `text.dfy`: JavaScript `split` with a one-character separator, `indexOf(...) != -1` and ASCII `toLowerCase`.
- `lines.dfy`: filtering lines in order. It states which positions survive and that the survivors form a subsequence.
- `xinput_mouse.dfy`: the xinput helper. The loops of `get_pointer_ids`, `get_mouse_ids` and `switch_devices` are methods. `GetPointerIds` and `GetMouseIds` are proved equal to the functions `PointerIds` and `MouseIds`, and the properties are proved about those functions. `SwitchDevices` states its commands index by index.
- `css_adjust.dfy`: the width adjuster as the class `AggregateMenu`. Its fields are the width, the load-time widths, the number of buttons in the row and the two handles.

Modelling choices:

- Running `xinput --list` is an `Option<string>`: `None` when spawning threw (`execute_sync` returns `false`), otherwise the command's standard output.
- A kept line without `=` makes the JavaScript code throw a TypeError (`split('=')[1]` is `undefined`). The model returns `Err(MissingIdSeparator(line))`, where `line` is the first such line.
- `split('=')[1]` is the text between the first `=` and the next one (or the end of the line). The model follows that exactly.
- In `get_mouse_ids` the id is cut only from lines that are not excluded, so an excluded line without `=` is no error there.
- Handler ids returned by a signal connection are parameters of the `auto` mode. GObject never returns 0, so a set handle is truthy exactly when it is `Some`.
- The width is not a sum of child widths: the code adds one dummy-button width (css_adjust.js:32-33, 91) for each action button beyond six, and the model follows the code.

## Model

| member | source | states |
|---|---|---|
| `Text.Split` | xinput_mouse.js:45 | `split` always returns at least one piece |
| `Text.SplitHead` | xinput_mouse.js:49 | the first piece of `split(c)` is the longest prefix free of `c`; the next character, if any, is `c` |
| `Text.SplitTail` | xinput_mouse.js:49 | without `c` the split is `[s]`; with one there are at least two pieces, and the pieces after the first are the split of the text after the first `c` |
| `Text.Contains` | xinput_mouse.js:48 | `indexOf(sub) != -1`: `sub` is a prefix of `s` or of one of its suffixes (`ContainsAt` gives the position form) |
| `Text.ContainsAt` | xinput_mouse.js:48 | `indexOf(sub) != -1` holds exactly when `sub` occurs at some position |
| `Text.Lower` | xinput_mouse.js:74 | ASCII `toLowerCase`: same length; each upper-case ASCII letter becomes the lower-case letter at the same place in the alphabet; no upper-case ASCII letter is left; every other character is kept in place |
| `Text.LowerOfLowerCase` | xinput_mouse.js:74 | text without upper-case ASCII letters is its own lower case |
| `Text.LowerIdempotent` | xinput_mouse.js:74 | lower-casing twice is lower-casing once |
| `Lines.FilterStep` | xinput_mouse.js:47-51 | one loop step: a line that passes is appended to the kept lines; one that fails adds nothing |
| `Lines.FilterConcat` | xinput_mouse.js:47-51 | filtering distributes over concatenation of line lists |
| `Lines.FilterKeeps` | xinput_mouse.js:46-51 | the kept lines are exactly the lines at the positions that pass the test: one per such position, strictly increasing positions, none missed |
| `Lines.FilterIsSubseq` | xinput_mouse.js:69-83 | kept lines form an order-preserving subsequence of the listing |
| `Lines.FilterFilter` | xinput_mouse.js:70-79 | filtering by "pointer" and then by "not excluded" equals filtering once by both tests |
| `XinputMouse.ExcludeDevicesLowerCase` | xinput_mouse.js:30-33 | the constant `ExcludeDevices` holds the source's 17 entries, all already lower case, so lower-casing them at xinput_mouse.js:74 changes nothing |
| `XinputMouse.IsPointerLine` | xinput_mouse.js:48 | a line qualifies when it contains `slave  pointer` (two spaces) and does not contain `XTEST` |
| `XinputMouse.CutId` | xinput_mouse.js:49 | `line.split('=')[1].split('[')[0].split('\t')[0]`, or `None` where `split('=')` has no second piece and the source throws |
| `XinputMouse.PointerIds` | xinput_mouse.js:40-56 | reference for `get_pointer_ids`: `Ok([])` when listing failed, otherwise the ids cut from the qualifying lines of the output split at newlines |
| `XinputMouse.MouseIds` | xinput_mouse.js:62-88 | reference for `get_mouse_ids`: the same over qualifying lines that name no excluded device |
| `XinputMouse.XinputInstalled` | xinput_mouse.js:124-130 | true exactly when running `xinput --list` did not throw |
| `XinputMouse.GetPointerIds` | xinput_mouse.js:40-56 | the loop returns `Ok([])` when listing failed and otherwise exactly `PointerIds`: ids of the kept lines in order, or the first kept line without `=` as error |
| `XinputMouse.GetMouseIds` | xinput_mouse.js:62-88 | the loop returns `Ok([])` when listing failed and otherwise exactly `MouseIds` (pointer lines naming no excluded device) |
| `XinputMouse.CheckNotExcluded` | xinput_mouse.js:72-77 | the flag stays set exactly when no lower-cased entry occurs in the lower-cased line |
| `XinputMouse.SwitchDevices` | xinput_mouse.js:94-106 | mode "on" gives one `xinput --enable <id>` per id, in order; "off" gives one `xinput --disable <id>` per id; any other mode gives no command |
| `XinputMouse.NotInstalledMeansNoIds` | xinput_mouse.js:111-130 | restates, as one documenting fact that follows directly from the definitions, that `xinput_installed` is true exactly when listing did not throw and that both id lists are then empty; the loops promise the empty lists themselves (`GetPointerIds`, `GetMouseIds`) |
| `XinputMouse.CutIdDefined` | xinput_mouse.js:49 | a line yields an id exactly when it contains `=` |
| `XinputMouse.CutIdAfterFirstEquals` | xinput_mouse.js:49 | the id is computed from the text after the first `=` |
| `XinputMouse.IdOfShape` | xinput_mouse.js:49 | the id is the longest prefix of that text with no `=`, `[` or tab |
| `XinputMouse.CutIdShape` | xinput_mouse.js:49 | every id lacks `=`, `[` and tab; it starts right after the line's first `=`; it ends at the end of the line or before one of those three characters |
| `XinputMouse.CutAllConcat` | xinput_mouse.js:47-51 | cutting ids from two blocks of lines is cutting each in turn; the first error wins |
| `XinputMouse.CutAllSnoc` | xinput_mouse.js:49-50 | one more kept line appends its id, or ends the list with that line as error |
| `XinputMouse.CutAllSpec` | xinput_mouse.js:47-51 | cutting succeeds exactly when every kept line has `=`; it then gives one id per line in order, and otherwise reports the first line without `=` |
| `XinputMouse.FailureStops` | xinput_mouse.js:49 | a kept line without `=` ends the whole call with that line as error, whatever follows |
| `XinputMouse.CutAllSubseq` | xinput_mouse.js:72-82 | ids cut from a subsequence of lines are a subsequence of the ids, and cutting cannot fail on the subsequence when it works on the whole |
| `XinputMouse.KeptLineIds` | xinput_mouse.js:46-51 | ids from lines passing a test: success exactly when all such lines have `=`; then one id per such line, taken from it, in line order; otherwise the error is the first such line without `=` |
| `XinputMouse.KeptLinesHaveIds` | xinput_mouse.js:49 | when cutting succeeds, every kept line has `=` |
| `XinputMouse.FirstKeptLineWithoutId` | xinput_mouse.js:49 | when cutting fails, the error is the first kept line without `=` |
| `XinputMouse.PointerIdsFromPointerLines` | xinput_mouse.js:46-51 | `get_pointer_ids` gives one id per line containing `slave  pointer` and not `XTEST`, in line order, and nothing from other lines; it fails exactly when such a line has no `=` |
| `XinputMouse.MouseIdsFromMouseLines` | xinput_mouse.js:68-83 | `get_mouse_ids` does the same for pointer lines none of whose lower-cased text contains a lower-cased `exclude_devices` entry |
| `XinputMouse.MouseIdsSubseqOfPointerIds` | xinput_mouse.js:70-82 | when `get_pointer_ids` succeeds, `get_mouse_ids` succeeds too, and its ids are an order-preserving subsequence of the pointer ids |
| `XinputMouse.ExcludedByIncluded` | xinput_mouse.js:73-77 | a line excluded by some entries stays excluded by any list that holds those entries |
| `XinputMouse.ExclusionOrderIrrelevant` | xinput_mouse.js:30-33 | reordering the exclusion entries does not change which lines are excluded |
| `CssAdjust.MenuWidth` | css_adjust.js:85-92 | the width the row needs, `base + btn * max(0, children - 6)`: the base width for six or fewer children, never below it when a button has non-negative width |
| `CssAdjust.CountWidth` | css_adjust.js:85-92 | the counting loop ends with `MenuWidth(base, btn, children)`; with six or fewer children that is the base width |
| `CssAdjust.MenuWidthStep` | css_adjust.js:87-92 | each button beyond the sixth adds one button width; up to six the width stays at the base |
| `CssAdjust.AggregateMenu.Connected` | css_adjust.js:43 | the negation of the guard `!menuChangedAdd && !menuChangedRem`: at least one handle is set |
| `CssAdjust.AggregateMenu.constructor` | css_adjust.js:27-33 | loading captures the menu width and one button's width; both handles are unset |
| `CssAdjust.AggregateMenu.CheckAggregateMenuWidth` | css_adjust.js:82-97 | afterwards the width is the one the row needs; it wrote exactly when the old width differed, and otherwise left the width untouched |
| `CssAdjust.AggregateMenu.DisconnectAll` | css_adjust.js:103-115 | both handles end unset; on a disconnected menu nothing changes |
| `CssAdjust.AggregateMenu.HandleAggregateMenu` | css_adjust.js:40-76 | "auto" when either handle is set changes nothing; "auto" from the disconnected state sets both handles and the needed width; "fixed" below the load-time width changes nothing; "fixed" at or above it clears both handles and sets exactly the requested width; "off" clears both handles and restores the load-time width; any other mode changes nothing; the object invariant is preserved |
| `CssAdjust.AggregateMenu.OnActorAdded` | css_adjust.js:49-52 | the row gains a button; with the add handle set, the width becomes the one the new row needs; the invariant is preserved |
| `CssAdjust.AggregateMenu.OnActorRemoved` | css_adjust.js:54-57 | the row loses a button; with the remove handle set, the width becomes the one the new row needs; the invariant is preserved |
| `CssAdjust.CheckTwice` | css_adjust.js:94-96 | a second check right after the first writes nothing |
| `CssAdjust.AutoFollowsRow` | css_adjust.js:43-57 | "auto" from the disconnected state, then any sequence of button additions and removals, leaves the menu connected at the width its row needs |

`AggregateMenu.Valid()` is the object invariant. It says the two handles are set and cleared together, that a set handle is a positive handler id (so a set handle is exactly a truthy one), and that while they are set the width is the one the row needs.

## Left out

- `extension.js` and `prefs.js` are not part of this model. They build widgets, connect host signals, spawn `xset dpms force off` and wrap the settings store. Every effect there is a host call.
- Process spawning is not modelled. The model takes the output of `xinput --list` as input and returns the commands `switch_devices` would run as strings. The results of running those commands are ignored by the source as well.
- Decoding of the spawned command's output bytes (`lines[1].toString()`) is not modelled: the output is taken to be text already.
- The load-time global `xinput_is_installed` is `XinputInstalled` applied to the listing result. When the listing is taken is not modelled.
- `toLowerCase` is ASCII-only. Non-ASCII case folding is not modelled.
- Clutter's float widths are whole pixels (`int`). Whatever layout the host itself performs on the menu width is not modelled.
- Signal delivery is not modelled, only the two handle variables. `disconnect_all` disconnects the handles from the menu actor, but they were connected to the action-button row's actor. So the model does not claim that the event handlers stop running once the handles are cleared.
- CssAdjust.AggregateMenu.OnActorAdded: with the add handle unset it states nothing about the width, for the reason in the previous line.
- CssAdjust.AggregateMenu.OnActorRemoved: with the remove handle unset it states nothing about the width, for the same reason.
- CssAdjust.AggregateMenu.OnActorRemoved: also requires a non-empty row, because the host signals removal only of an existing child.
- The host's child list (`get_children()`) is only its length, `childCount`. The code uses nothing else from it.
