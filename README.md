# Drag-and-drop upload widget, modelled in Dafny

The widget lets a user drop files on a zone or choose them with a file input.
It lists the chosen files, each with an icon picked from its MIME type and a
human-readable size. A button runs a simulated upload: it disables itself,
waits two seconds, shows a success banner and clears the list and the input.
A status banner shows the outcome of each attempt and hides itself three
seconds after each message.

The project has seven modules:

- `Wrappers` (`wrappers.dfy`): `Option` and `Result`.
- `Strings` (`strings.dfy`): JavaScript's `startsWith` and `includes`, the
  first index of an element, and decimal numerals with their parser.
- `Icons` (`icons.dfy`): `getFileIcon`. It is written as the source's
  if-chain and proved equal to a rule table read first-match-wins.
- `Sizes` (`sizes.dfy`): `formatFileSize`. The unit index, the rounding
  and the printing are stated exactly, in integers. A parser for size texts
  is its partner: parsing a formatted size gives back the meaning it was
  formatted from.
- `WidgetState` (`widget_state.dfy`): the widget's state as a value. It
  holds one transition function per handler, the dispatch from events to
  handlers (`Step`), and replay of an event sequence (`Run`).
- `UploadWidget` (`widget.dfy`): class `Widget`. Its fields are the state,
  and its methods mutate them in place. Every method keeps the invariant
  `Valid()`, and each method's new `View()` is given by a function of
  `WidgetState` applied to the old one; the constructor's `View()` is
  `WidgetState.Initial`.
- `Scenarios` (`scenarios.dfy`): the concrete cases the widget is expected
  to produce, proved from the definitions.

The model keeps the list on the page (`rendered`) apart from the file input's
own selection (`picker`). The click handler looks only at the input's files,
and a drop only updates the list. So files that were only dropped never start
an upload (`WidgetState.DroppedFilesDoNotUpload`), even though the list
shows them.

The timers are explicit events. `UploadDelayElapsed` is the end of the
two-second pause. `HideDelayElapsed` is one banner auto-hide timer firing.
`hideTimers` counts the timers still pending. Every timer does the same
thing, so the count is enough. The code hides the banner when any earlier
timer fires, even if a newer message is showing, so a banner is not always
visible for the full 3000 ms after the latest message. The model keeps this:
`HideStatus` hides whatever is shown, and
`WidgetState.EarlierTimerHidesNewerBanner` exhibits it: after two clicks with
an empty picker and one elapsed hide delay, the banner is hidden while a timer
is still pending.

A click on the disabled button is not delivered by the browser. The model
treats it as a no-op (`WidgetState.ClickWhileBusy`).

## Model

| member | source | states |
|---|---|---|
| `Icons.GetFileIcon` | script.js:85-93 | the result is always one of the seven icon class tokens |
| `Icons.GetFileIconFollowsRules` | script.js:85-93 | the if-chain equals the rule table (image/, video/, audio/ prefixes, then pdf, word, excel or spreadsheet substrings) read first-match-wins, generic token otherwise |
| `Icons.FirstPassingRuleWins` | script.js:86-91 | in a rule table the first rule that passes decides the token, whatever later rules would say |
| `Icons.GenericIffNoRulePasses` | script.js:86-92 | the generic token `fas fa-file` is returned exactly when none of the six tests passes |
| `Icons.ImagePrefixWins` | script.js:86 | every type starting with `image/` gets the image icon, even if it also contains `pdf` or `word` |
| `Icons.GenericWhenNoTestPasses` | script.js:86-92 | falling through every test gives the generic token |
| `Scenarios.ImageExample` | script.js:86 | `image/png` gets the image icon |
| `Scenarios.PdfExample` | script.js:89 | `application/pdf` gets the pdf icon |
| `Scenarios.PlainTextExample` | script.js:92 | `text/plain` gets the generic icon |
| `Scenarios.EmptyTypeExample` | script.js:92 | an empty MIME type gets the generic icon |
| `Sizes.UnitIndex` | script.js:99 | the unit index `i` is the exponent with `1024^i <= bytes < 1024^(i+1)` |
| `Sizes.UnitIndexUnique` | script.js:99 | only one exponent brackets the byte count, so the index is the largest `i` with `1024^i <= bytes` |
| `Sizes.UnitIndexInTable` | script.js:98-100 | the index names an entry of the five-unit table exactly when `bytes < 1024^5` |
| `Sizes.RoundToHundredths` | script.js:100 | the value is `bytes / 1024^i` rounded half up to hundredths: within half a hundredth, ties upward |
| `Sizes.ScaledValueRange` | script.js:99-100 | before rounding the value lies in [1, 1024); after rounding in [1, 1024] |
| `Sizes.FormatFileSize` | script.js:95-101 | zero gives exactly `0 Bytes`; the result is an error exactly when the unit would lie beyond terabytes |
| `Sizes.FormatFileSizeRoundTrip` | script.js:95-101 | parsing the formatted text gives back the rounded value and the unit index |
| `Sizes.DecimalTextRoundTrip` | script.js:100 | the printed number reads back as the value in hundredths it was printed from |
| `Sizes.DecimalTextCanonical` | script.js:100 | the printed number has no leading zero before a non-zero whole part and no trailing zero after the point |
| `Scenarios.ZeroBytesExample` | script.js:96 | 0 gives `0 Bytes` |
| `Scenarios.OneKilobyteExample` | script.js:97-100 | 1024 gives `1 KB` |
| `Scenarios.KilobyteAndAHalfExample` | script.js:97-100 | 1536 gives `1.5 KB` |
| `Scenarios.OneMegabyteExample` | script.js:97-100 | 1048576 gives `1 MB` |
| `Scenarios.TieRoundsUpExample` | script.js:100 | 1152 bytes, exactly 1.125 KB, give `1.13 KB`: a tie rounds up, as `toFixed` does |
| `Scenarios.RoundsUpToTheBaseExample` | script.js:99-100 | 1048575 gives `1024 KB`: rounding can carry the value up to the base without changing the unit |
| `Sizes.DecimalText` | script.js:100 | the printed number starts with a digit, and starts with `0` exactly when the value is below 1; its round trip is `Sizes.DecimalTextRoundTrip` and its canonical form `Sizes.DecimalTextCanonical` |
| `Strings.NatToString` | script.js:100 | the whole part is printed as decimal digits with no leading zero |
| `WidgetState.Render` | script.js:58-83 | a list entry carries its file and the icon the first passing rule of the icon table names; its size text is present exactly when the size fits the unit table, and then reads back as the size's intended value and unit |
| `WidgetState.RenderAll` | script.js:50-56 | one entry per file, in the order of the files |
| `WidgetState.ListedFilesOfRenderAll` | script.js:50-56 | the rendered list shows exactly the given files, in order, and nothing else |
| `WidgetState.Highlight` | script.js:28-30 | the zone is highlighted, nothing else changes, and the invariant is unaffected; idempotence is `WidgetState.HighlightIdempotent` |
| `WidgetState.Unhighlight` | script.js:32-34 | the highlight is cleared, nothing else changes, and the invariant is unaffected |
| `WidgetState.HandleFiles` | script.js:50-56 | the new list shows exactly the given files, one entry each, and nothing else changes; replacement and idempotence are `WidgetState.HandleFilesReplaces` |
| `WidgetState.ShowStatus` | script.js:130-141 | the banner is visible with the message and the style of its kind, one more hide timer is pending, nothing else changes, and the invariant is kept |
| `WidgetState.HideStatus` | script.js:138-140 | a firing timer hides the banner whatever it shows, keeps its text and style, and one timer fewer is pending; the invariant is kept |
| `WidgetState.ClickUpload` | script.js:104-113 | the button ends disabled exactly when it was already, or the picker holds files; an empty picker on an idle button shows the error banner; list, picker and highlight are untouched; the invariant is kept |
| `WidgetState.FinishUpload` | script.js:115-127 | success banner shown with one more pending timer, list and picker empty, button idle with its default label, highlight untouched, invariant established |
| `WidgetState.Step` | script.js:20-48 | each event keeps the invariant; only a picker change or the end of an upload changes the picker; an upload starts only from a click with a non-empty picker and ends only when its delay elapses |
| `WidgetState.EarlierTimerHidesNewerBanner` | script.js:130-141 | two error messages in a row, then one elapsed hide delay: the banner is hidden although the second message's timer is still pending |
| `WidgetState.HandleFilesReplaces` | script.js:50-56 | a selection replaces the list wholesale, leaves the picker untouched, and repeating it changes nothing |
| `WidgetState.SecondSelectionReplacesFirst` | script.js:39-56 | a drop followed by a picker change leaves the list showing only the second selection |
| `WidgetState.HighlightIdempotent` | script.js:28-34 | highlighting twice is highlighting once, and the same for clearing |
| `WidgetState.HighlightFollowsLatestDragEvent` | script.js:19-34 | after any events the zone is highlighted exactly when the latest drag event was dragenter or dragover |
| `WidgetState.ClickWithEmptyPicker` | script.js:105-109 | a click with an empty picker keeps the button idle and shows the visible error banner with the choose-a-file message; nothing else changes |
| `WidgetState.ClickWithSelection` | script.js:111-113 | a click with a selection disables the button and shows the spinner; nothing else changes |
| `WidgetState.ClickWhileBusy` | script.js:112 | a disabled button ignores clicks |
| `WidgetState.UploadCycle` | script.js:104-128 | click then delay: success banner shown, list and picker empty, button enabled with its default label, highlight unchanged |
| `WidgetState.DroppedFilesDoNotUpload` | script.js:39-109 | from an idle widget with an empty picker, no sequence of events without a picker change starts an upload; a click then only shows the error banner |
| `WidgetState.BusyUntilDelayElapses` | script.js:112-126 | once started, an upload stays pending through any events until its delay elapses |
| `WidgetState.StepPreservesConsistent` | script.js:104-141 | every handler keeps the invariant: spinner exactly while disabled, and a visible banner has a pending hide timer |
| `WidgetState.RunPreservesConsistent` | script.js:104-141 | the invariant holds after every sequence of events |
| `UploadWidget.Widget.constructor` | script.js:1-6 | the widget starts with an empty list and picker, no highlight, an idle button and a hidden banner |
| `UploadWidget.Widget.Highlight` | script.js:28-30 | sets the highlight and nothing else |
| `UploadWidget.Widget.Unhighlight` | script.js:32-34 | clears the highlight and nothing else |
| `UploadWidget.Widget.HandleFiles` | script.js:50-56 | clears the list and appends one entry per file in a loop; the list ends equal to the entries of the files |
| `UploadWidget.Widget.HandleDrop` | script.js:39-43 | the dropped files replace the list; the picker keeps its selection |
| `UploadWidget.Widget.PickerChanged` | script.js:46-48 | the picker holds the chosen files, which replace the list |
| `UploadWidget.Widget.ShowStatus` | script.js:130-141 | the banner shows the message in the style of its kind, made visible, with one more hide timer pending |
| `UploadWidget.Widget.HideStatus` | script.js:138-140 | a hide timer fires: the banner is hidden |
| `UploadWidget.Widget.ClickUpload` | script.js:104-113 | the click handler up to the delay, as `WidgetState.ClickUpload` |
| `UploadWidget.Widget.FinishUpload` | script.js:115-127 | the rest of the handler after the delay, as `WidgetState.FinishUpload` |
| `UploadWidget.Widget.Dispatch` | script.js:20-48 | each event reaches the handlers registered for it, as `WidgetState.Step` |

## Left out

- Listener registration and `preventDefaults` (script.js:9-17): browser plumbing. The dispatch from events to handlers is kept as `WidgetState.Step`.
- Real time: the 2000 ms and 3000 ms `setTimeout` delays are the explicit events `UploadDelayElapsed` and `HideDelayElapsed`.
- The `catch` branch of the upload (script.js:122-123): the simulated delay never rejects, so the branch cannot run.
- Markup: the `innerHTML` template of an entry, the spinner markup and the CSS class strings. An entry is the triple (file, icon token, size text), the label is `DefaultLabel` or `UploadingLabel`, and the banner style is success or error. Escaping of `file.name` is presentation and is not modelled.
- The message texts stand as opaque string constants.
- Sizes.FormatFileSize: takes the unit index as the exact largest power of 1024 not above the count. The code computes it with floating-point `Math.log`; the rounded quotient of logarithms is exact at the powers 1024^1 to 1024^5, but for counts just below 1024^5 (1024^5 - 1 among them) it rounds up to 5, so the code prints `1 undefined` where the model gives `Ok("1024 TB")`. The division by 1024^i and `toFixed(2)` are exact for every count in the table (all are below 2^53, and `toFixed` breaks ties upward), so the rounding and printing are modelled as the code computes them.
- Sizes.FormatFileSize: returns `Err(UnitOutOfRange)` for counts of 1024^5 bytes or more. There the code indexes past its unit table and prints `undefined` as the unit.
