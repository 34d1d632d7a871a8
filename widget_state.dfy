/**
 * The upload widget's state as a value, and one transition function per
 * handler of the page: highlighting the drop zone, replacing the rendered
 * list, showing and hiding the status banner, and the two halves of the
 * simulated upload (the click, and the end of the two-second delay). A
 * timer's expiry is an explicit event. `Step` is the dispatch table from
 * events to handlers; `Run` replays a sequence of events.
 */
module WidgetState {
  import opened Wrappers
  import Icons
  import Sizes

  /** A file handle as the browser reports it. */
  datatype FileRecord = FileRecord(name: string, size: nat, mimeType: string)

  /** One entry of the rendered list: the file with its icon token and its size text. */
  datatype ListItem = ListItem(file: FileRecord, icon: string, sizeText: Result<string, Sizes.SizeError>)

  /** The `type` argument of `showStatus`. */
  datatype StatusKind = Success | Error

  /** The banner's colour scheme; it has none until the first message. */
  datatype BannerStyle = Unstyled | SuccessStyle | ErrorStyle

  datatype Banner = Banner(text: string, style: BannerStyle, visible: bool)

  /** The upload button's label: the default text or the spinner. */
  datatype ButtonLabel = DefaultLabel | UploadingLabel

  const ChooseFileFirst := "Pilih file terlebih dahulu!"
  const UploadSucceeded := "File berhasil diupload!"

  /**
   * `rendered` is the list on the page, `picker` the file input's own
   * selection, `busy` the button's disabled flag, and `hideTimers` the number
   * of banner auto-hide timers that have not fired yet.
   */
  datatype State = State(
    rendered: seq<ListItem>,
    picker: seq<FileRecord>,
    highlighted: bool,
    busy: bool,
    buttonLabel: ButtonLabel,
    banner: Banner,
    hideTimers: nat)

  /** The page as loaded: empty list and selection, button idle, banner hidden. */
  const Initial := State([], [], false, false, DefaultLabel, Banner("", Unstyled, false), 0)

  /** The object invariant: the button shows the spinner exactly while it is disabled, and a visible banner still has a hide timer pending. */
  predicate Consistent(s: State)
  {
    (s.busy <==> s.buttonLabel == UploadingLabel) && (s.banner.visible ==> s.hideTimers > 0)
  }

  /**
   * `createFileListItem`: the list entry of one file. Its icon is the one the
   * first passing rule of the icon table names, and its size text, when the
   * size fits the unit table, reads back as the size's intended meaning.
   */
  function Render(f: FileRecord): (item: ListItem)
    ensures item.file == f
    ensures item.icon == Icons.FirstMatch(Icons.IconRules, f.mimeType) && item.icon in Icons.IconTokens
    ensures item.sizeText.Ok? <==> f.size < Sizes.Pow(Sizes.K, |Sizes.Units|)
    ensures item.sizeText.Ok? ==> Sizes.ParseSizeText(item.sizeText.value) == Some(Sizes.SizeMeaning(f.size))
  {
    Icons.GetFileIconFollowsRules(f.mimeType);
    var item := ListItem(f, Icons.GetFileIcon(f.mimeType), Sizes.FormatFileSize(f.size));
    if item.sizeText.Ok? then
      Sizes.FormatFileSizeRoundTrip(f.size);
      item
    else item
  }

  /** The entries for a file sequence: one per file, in order. */
  function RenderAll(files: seq<FileRecord>): (items: seq<ListItem>)
    ensures |items| == |files|
    ensures forall k :: 0 <= k < |files| ==> items[k] == Render(files[k])
  {
    if files == [] then [] else [Render(files[0])] + RenderAll(files[1..])
  }

  /** Rendering one more file appends its entry. */
  lemma RenderAllSnoc(files: seq<FileRecord>, k: nat)
    requires k < |files|
    ensures RenderAll(files[..k + 1]) == RenderAll(files[..k]) + [Render(files[k])]
  {
    var left, right := RenderAll(files[..k + 1]), RenderAll(files[..k]) + [Render(files[k])];
    forall j | 0 <= j < k + 1 ensures left[j] == right[j] {
      assert files[..k + 1][j] == files[j];
      if j < k {
        assert files[..k][j] == files[j];
      }
    }
  }

  /** The files a rendered list shows. */
  function ListedFiles(items: seq<ListItem>): seq<FileRecord>
  {
    if items == [] then [] else [items[0].file] + ListedFiles(items[1..])
  }

  /** Rendering loses no file and adds none: the list shows exactly the selection, in order. */
  lemma {:induction false} ListedFilesOfRenderAll(files: seq<FileRecord>)
    ensures ListedFiles(RenderAll(files)) == files
  {
    if files != [] {
      ListedFilesOfRenderAll(files[1..]);
      assert RenderAll(files)[1..] == RenderAll(files[1..]);
    }
  }

  /** `highlight`: the drop zone is highlighted; nothing else changes. */
  function Highlight(s: State): (r: State)
    ensures r.highlighted && r.(highlighted := s.highlighted) == s
    ensures Consistent(r) <==> Consistent(s)
  {
    s.(highlighted := true)
  }

  /** `unhighlight`: the highlight is cleared; nothing else changes. */
  function Unhighlight(s: State): (r: State)
    ensures !r.highlighted && r.(highlighted := s.highlighted) == s
    ensures Consistent(r) <==> Consistent(s)
  {
    s.(highlighted := false)
  }

  /** `handleFiles`: the rendered list is replaced by the entries of `files`, which shows exactly those files. */
  function HandleFiles(s: State, files: seq<FileRecord>): (r: State)
    ensures ListedFiles(r.rendered) == files && |r.rendered| == |files|
    ensures r.(rendered := s.rendered) == s
    ensures Consistent(r) <==> Consistent(s)
  {
    ListedFilesOfRenderAll(files);
    s.(rendered := RenderAll(files))
  }

  function StyleOf(kind: StatusKind): BannerStyle
  {
    if kind == Success then SuccessStyle else ErrorStyle
  }

  /** `showStatus`: the banner shows `message` in the style of `kind` and one more hide timer is pending. */
  function ShowStatus(s: State, message: string, kind: StatusKind): (r: State)
    ensures r.banner.visible && r.banner.text == message
    ensures r.banner.style == (if kind == Success then SuccessStyle else ErrorStyle)
    ensures r.hideTimers == s.hideTimers + 1
    ensures r.(banner := s.banner, hideTimers := s.hideTimers) == s
    ensures Consistent(s) ==> Consistent(r)
  {
    s.(banner := Banner(message, StyleOf(kind), true), hideTimers := s.hideTimers + 1)
  }

  /** The oldest pending hide timer fires: the banner is hidden, whatever it shows. */
  function HideStatus(s: State): (r: State)
    requires s.hideTimers > 0
    ensures !r.banner.visible && r.banner.text == s.banner.text && r.banner.style == s.banner.style
    ensures r.hideTimers + 1 == s.hideTimers
    ensures r.(banner := s.banner, hideTimers := s.hideTimers) == s
    ensures Consistent(s) ==> Consistent(r)
  {
    s.(banner := s.banner.(visible := false), hideTimers := s.hideTimers - 1)
  }

  /**
   * A click on the upload button. A disabled button receives no click. With
   * an empty picker selection the error banner is shown; otherwise the
   * button is disabled and shows the spinner while the upload is pending.
   */
  function ClickUpload(s: State): (r: State)
    ensures r.busy <==> s.busy || |s.picker| > 0
    ensures r.rendered == s.rendered && r.picker == s.picker && r.highlighted == s.highlighted
    ensures !s.busy && |s.picker| == 0 ==> r.banner == Banner(ChooseFileFirst, ErrorStyle, true)
    ensures (s.busy || |s.picker| > 0) ==> r.banner == s.banner && r.hideTimers == s.hideTimers
    ensures Consistent(s) ==> Consistent(r)
  {
    if s.busy then s
    else if |s.picker| == 0 then ShowStatus(s, ChooseFileFirst, Error)
    else s.(busy := true, buttonLabel := UploadingLabel)
  }

  /** The end of the upload delay: success banner, list and selection cleared, button restored. */
  function FinishUpload(s: State): (r: State)
    requires s.busy
    ensures r.banner == Banner(UploadSucceeded, SuccessStyle, true) && r.hideTimers == s.hideTimers + 1
    ensures r.rendered == [] && r.picker == [] && r.highlighted == s.highlighted
    ensures !r.busy && r.buttonLabel == DefaultLabel
    ensures Consistent(r)
  {
    var t := ShowStatus(s, UploadSucceeded, Success);
    t.(rendered := [], picker := [], busy := false, buttonLabel := DefaultLabel)
  }

  datatype Event =
    | DragEnter
    | DragOver
    | DragLeave
    | Drop(dropped: seq<FileRecord>)
    | PickerChange(chosen: seq<FileRecord>)
    | UploadClick
    | UploadDelayElapsed
    | HideDelayElapsed

  /** An event can occur: the upload delay only while an upload is pending, a hide delay only while a timer is. */
  predicate Enabled(s: State, e: Event)
  {
    match e
    case UploadDelayElapsed => s.busy
    case HideDelayElapsed => s.hideTimers > 0
    case _ => true
  }

  /** The handlers each event reaches. */
  function Step(s: State, e: Event): (r: State)
    requires Enabled(s, e)
    ensures Consistent(s) ==> Consistent(r)
    ensures !e.PickerChange? && !e.UploadDelayElapsed? ==> r.picker == s.picker
    ensures !s.busy && r.busy ==> e.UploadClick? && |s.picker| > 0
    ensures s.busy && !r.busy ==> e.UploadDelayElapsed?
  {
    match e
    case DragEnter => Highlight(s)
    case DragOver => Highlight(s)
    case DragLeave => Unhighlight(s)
    case Drop(files) => HandleFiles(Unhighlight(s), files)
    case PickerChange(files) => HandleFiles(s.(picker := files), files)
    case UploadClick => ClickUpload(s)
    case UploadDelayElapsed => FinishUpload(s)
    case HideDelayElapsed => HideStatus(s)
  }

  predicate ValidTrace(s: State, evs: seq<Event>)
    decreases |evs|
  {
    evs == [] || (Enabled(s, evs[0]) && ValidTrace(Step(s, evs[0]), evs[1..]))
  }

  function Run(s: State, evs: seq<Event>): State
    requires ValidTrace(s, evs)
    decreases |evs|
  {
    if evs == [] then s else Run(Step(s, evs[0]), evs[1..])
  }

  // ---------------------------------------------------------------------------
  // Properties of single handlers

  lemma InitialConsistent()
    ensures Consistent(Initial)
  {
  }

  lemma StepPreservesConsistent(s: State, e: Event)
    requires Consistent(s) && Enabled(s, e)
    ensures Consistent(Step(s, e))
  {
  }

  /** A click with nothing in the picker leaves the button idle and shows the error banner; nothing else changes. */
  lemma ClickWithEmptyPicker(s: State)
    requires !s.busy && s.picker == []
    ensures ClickUpload(s) ==
      s.(banner := Banner(ChooseFileFirst, ErrorStyle, true), hideTimers := s.hideTimers + 1)
    ensures !ClickUpload(s).busy
  {
  }

  /** A click with a selection disables the button and shows the spinner; nothing else changes. */
  lemma ClickWithSelection(s: State)
    requires !s.busy && s.picker != []
    ensures ClickUpload(s) == s.(busy := true, buttonLabel := UploadingLabel)
  {
  }

  /** While the button is disabled a click changes nothing. */
  lemma ClickWhileBusy(s: State)
    requires s.busy
    ensures ClickUpload(s) == s
  {
  }

  /** A complete upload: success banner, empty list, empty selection, idle button with the default buttonLabel. */
  lemma UploadCycle(s: State)
    requires !s.busy && s.picker != []
    ensures ClickUpload(s).busy
    ensures var t := FinishUpload(ClickUpload(s));
      t.banner == Banner(UploadSucceeded, SuccessStyle, true) &&
      t.rendered == [] && t.picker == [] &&
      !t.busy && t.buttonLabel == DefaultLabel &&
      t.highlighted == s.highlighted && t.hideTimers == s.hideTimers + 1
  {
  }

  /** Each selection replaces the list wholesale: the earlier list leaves no trace, and the picker is untouched. */
  lemma HandleFilesReplaces(s: State, files: seq<FileRecord>)
    ensures ListedFiles(HandleFiles(s, files).rendered) == files
    ensures |HandleFiles(s, files).rendered| == |files|
    ensures HandleFiles(s, files).picker == s.picker
    ensures HandleFiles(HandleFiles(s, files), files) == HandleFiles(s, files)
  {
    ListedFilesOfRenderAll(files);
  }

  lemma HighlightIdempotent(s: State)
    ensures Highlight(Highlight(s)) == Highlight(s)
    ensures Unhighlight(Unhighlight(s)) == Unhighlight(s)
  {
  }

  // ---------------------------------------------------------------------------
  // Properties of event sequences

  /** The invariant holds after every sequence of events. */
  lemma {:induction false} RunPreservesConsistent(s: State, evs: seq<Event>)
    requires Consistent(s) && ValidTrace(s, evs)
    ensures Consistent(Run(s, evs))
    decreases |evs|
  {
    if evs != [] {
      StepPreservesConsistent(s, evs[0]);
      RunPreservesConsistent(Step(s, evs[0]), evs[1..]);
    }
  }

  /** The highlight a drag event leaves, or `h` for any other event. */
  function HighlightAfter(h: bool, e: Event): bool
  {
    match e
    case DragEnter => true
    case DragOver => true
    case DragLeave => false
    case Drop(_) => false
    case _ => h
  }

  /** The highlight after a sequence of events: set by the latest drag event, or the initial one without any. */
  function LatestHighlight(h: bool, evs: seq<Event>): bool
  {
    if evs == [] then h
    else if evs[|evs| - 1].DragEnter? || evs[|evs| - 1].DragOver? then true
    else if evs[|evs| - 1].DragLeave? || evs[|evs| - 1].Drop? then false
    else LatestHighlight(h, evs[..|evs| - 1])
  }

  lemma {:induction false} LatestHighlightCons(h: bool, e: Event, evs: seq<Event>)
    ensures LatestHighlight(h, [e] + evs) == LatestHighlight(HighlightAfter(h, e), evs)
    decreases |evs|
  {
    if evs != [] {
      assert ([e] + evs)[..|[e] + evs| - 1] == [e] + evs[..|evs| - 1];
      LatestHighlightCons(h, e, evs[..|evs| - 1]);
    } else {
      assert ([e] + evs)[..0] == [];
    }
  }

  /** The drop zone is highlighted exactly when the latest drag event was an enter or an over. */
  lemma {:induction false} HighlightFollowsLatestDragEvent(s: State, evs: seq<Event>)
    requires ValidTrace(s, evs)
    ensures Run(s, evs).highlighted == LatestHighlight(s.highlighted, evs)
    decreases |evs|
  {
    if evs != [] {
      assert Step(s, evs[0]).highlighted == HighlightAfter(s.highlighted, evs[0]);
      HighlightFollowsLatestDragEvent(Step(s, evs[0]), evs[1..]);
      LatestHighlightCons(s.highlighted, evs[0], evs[1..]);
      assert [evs[0]] + evs[1..] == evs;
    }
  }

  /**
   * Files that arrive only by drop never start an upload: from an idle
   * widget with an empty picker, any events without a picker change leave
   * the picker empty and the button idle, and a click then only shows the
   * error banner.
   */
  lemma {:induction false} DroppedFilesDoNotUpload(s: State, evs: seq<Event>)
    requires !s.busy && s.picker == [] && ValidTrace(s, evs)
    requires forall k :: 0 <= k < |evs| ==> !evs[k].PickerChange?
    ensures Run(s, evs).picker == [] && !Run(s, evs).busy
    ensures ClickUpload(Run(s, evs)) ==
      Run(s, evs).(banner := Banner(ChooseFileFirst, ErrorStyle, true), hideTimers := Run(s, evs).hideTimers + 1)
    decreases |evs|
  {
    if evs != [] {
      assert !evs[0].PickerChange?;
      assert forall k :: 0 <= k < |evs[1..]| ==> !evs[1..][k].PickerChange? by {
        forall k | 0 <= k < |evs[1..]| ensures !evs[1..][k].PickerChange? {
          assert evs[1..][k] == evs[k + 1];
        }
      }
      DroppedFilesDoNotUpload(Step(s, evs[0]), evs[1..]);
    }
  }

  /** Once an upload is pending it stays pending, whatever else happens, until its delay elapses. */
  lemma {:induction false} BusyUntilDelayElapses(s: State, evs: seq<Event>)
    requires s.busy && ValidTrace(s, evs)
    requires forall k :: 0 <= k < |evs| ==> !evs[k].UploadDelayElapsed?
    ensures Run(s, evs).busy && Run(s, evs).buttonLabel == s.buttonLabel
    decreases |evs|
  {
    if evs != [] {
      assert !evs[0].UploadDelayElapsed?;
      assert forall k :: 0 <= k < |evs[1..]| ==> !evs[1..][k].UploadDelayElapsed? by {
        forall k | 0 <= k < |evs[1..]| ensures !evs[1..][k].UploadDelayElapsed? {
          assert evs[1..][k] == evs[k + 1];
        }
      }
      BusyUntilDelayElapses(Step(s, evs[0]), evs[1..]);
    }
  }

  /**
   * Every hide timer hides the banner, not only the latest one: two clicks
   * with an empty picker show the error banner twice, and the first timer
   * hides it while the second is still pending.
   */
  lemma EarlierTimerHidesNewerBanner(s: State)
    requires !s.busy && s.picker == []
    ensures var evs := [UploadClick, UploadClick, HideDelayElapsed];
      ValidTrace(s, evs) &&
      !Run(s, evs).banner.visible && Run(s, evs).hideTimers == s.hideTimers + 1
  {
    var evs := [UploadClick, UploadClick, HideDelayElapsed];
    var s1 := Step(s, evs[0]);
    var s2 := Step(s1, evs[1]);
    var s3 := Step(s2, evs[2]);
    assert evs[1..] == [UploadClick, HideDelayElapsed] && evs[1..][1..] == [HideDelayElapsed];
    assert evs[1..][1..][1..] == [];
    assert Run(s, evs) == Run(s1, evs[1..]) == Run(s2, evs[1..][1..]) == Run(s3, []) == s3;
  }

  /** A selection by drop followed by one by the picker: the list shows the second selection only. */
  lemma SecondSelectionReplacesFirst(s: State, first: seq<FileRecord>, second: seq<FileRecord>)
    ensures ValidTrace(s, [Drop(first), PickerChange(second)])
    ensures var t := Run(s, [Drop(first), PickerChange(second)]);
      ListedFiles(t.rendered) == second && |t.rendered| == |second| && t.picker == second
  {
    var evs := [Drop(first), PickerChange(second)];
    var s1 := Step(s, evs[0]);
    var s2 := Step(s1, evs[1]);
    assert evs[1..][1..] == [];
    assert Run(s, evs) == Run(s1, evs[1..]) == Run(s2, []) == s2;
    ListedFilesOfRenderAll(second);
  }
}
