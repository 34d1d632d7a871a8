/**
 * The page's handlers as methods of one object that owns the widget's
 * mutable state: the rendered list, the file input's selection, the drop
 * zone's highlight, the upload button's disabled flag and label, and the
 * status banner. Each method changes only these fields, and its new state is
 * the one the matching transition function of `WidgetState` gives.
 */
module UploadWidget {
  import WS = WidgetState

  class Widget {
    var rendered: seq<WS.ListItem>
    var picker: seq<WS.FileRecord>
    var highlighted: bool
    var busy: bool
    var buttonLabel: WS.ButtonLabel
    var banner: WS.Banner
    var hideTimers: nat

    /** The widget's fields as one value. */
    function View(): WS.State
      reads this
    {
      WS.State(rendered, picker, highlighted, busy, buttonLabel, banner, hideTimers)
    }

    ghost predicate Valid()
      reads this
    {
      WS.Consistent(View())
    }

    constructor ()
      ensures View() == WS.Initial && Valid()
    {
      rendered, picker, highlighted := [], [], false;
      busy, buttonLabel := false, WS.DefaultLabel;
      banner, hideTimers := WS.Banner("", WS.Unstyled, false), 0;
    }

    /** `highlight`: on dragenter and dragover. */
    method Highlight()
      requires Valid()
      modifies this
      ensures Valid() && View() == WS.Highlight(old(View()))
    {
      highlighted := true;
    }

    /** `unhighlight`: on dragleave and drop. */
    method Unhighlight()
      requires Valid()
      modifies this
      ensures Valid() && View() == WS.Unhighlight(old(View()))
    {
      highlighted := false;
    }

    /** `handleFiles`: clear the list, then append one entry per file. */
    method HandleFiles(files: seq<WS.FileRecord>)
      requires Valid()
      modifies this
      ensures Valid() && View() == WS.HandleFiles(old(View()), files)
      ensures |rendered| == |files| && forall k :: 0 <= k < |files| ==> rendered[k] == WS.Render(files[k])
    {
      rendered := [];
      var k := 0;
      while k < |files|
        invariant 0 <= k <= |files|
        invariant rendered == WS.RenderAll(files[..k])
        invariant View() == old(View()).(rendered := rendered)
      {
        WS.RenderAllSnoc(files, k);
        rendered := rendered + [WS.Render(files[k])];
        k := k + 1;
      }
      assert files[..k] == files;
    }

    /** `handleDrop`: the dropped files reach `handleFiles`; the picker's selection is not touched. */
    method HandleDrop(files: seq<WS.FileRecord>)
      requires Valid()
      modifies this
      ensures Valid() && View() == WS.HandleFiles(old(View()), files)
      ensures picker == old(picker)
    {
      HandleFiles(files);
    }

    /** The file input's change listener: the input holds the chosen files, which reach `handleFiles`. */
    method PickerChanged(files: seq<WS.FileRecord>)
      requires Valid()
      modifies this
      ensures Valid() && View() == WS.HandleFiles(old(View()).(picker := files), files)
    {
      picker := files;
      HandleFiles(files);
    }

    /** `showStatus`: set the banner's text and style, show it, and start its hide timer. */
    method ShowStatus(message: string, kind: WS.StatusKind)
      requires Valid()
      modifies this
      ensures Valid() && View() == WS.ShowStatus(old(View()), message, kind)
    {
      banner := WS.Banner(message, WS.StyleOf(kind), true);
      hideTimers := hideTimers + 1;
    }

    /** The banner's hide timer fires. */
    method HideStatus()
      requires Valid() && hideTimers > 0
      modifies this
      ensures Valid() && View() == WS.HideStatus(old(View()))
    {
      banner := banner.(visible := false);
      hideTimers := hideTimers - 1;
    }

    /** The upload button's click listener, up to the simulated delay. */
    method ClickUpload()
      requires Valid()
      modifies this
      ensures Valid() && View() == WS.ClickUpload(old(View()))
    {
      if busy {
        return;
      }
      if |picker| == 0 {
        ShowStatus(WS.ChooseFileFirst, WS.Error);
        return;
      }
      busy := true;
      buttonLabel := WS.UploadingLabel;
    }

    /** The rest of the click listener, once the simulated delay has elapsed. */
    method FinishUpload()
      requires Valid() && busy
      modifies this
      ensures Valid() && View() == WS.FinishUpload(old(View()))
    {
      ShowStatus(WS.UploadSucceeded, WS.Success);
      rendered := [];
      picker := [];
      busy := false;
      buttonLabel := WS.DefaultLabel;
    }

    /** Delivers one event to the handlers registered for it. */
    method Dispatch(e: WS.Event)
      requires Valid() && WS.Enabled(View(), e)
      modifies this
      ensures Valid() && View() == WS.Step(old(View()), e)
    {
      match e
      case DragEnter => Highlight();
      case DragOver => Highlight();
      case DragLeave => Unhighlight();
      case Drop(files) =>
        Unhighlight();
        HandleDrop(files);
      case PickerChange(files) => PickerChanged(files);
      case UploadClick => ClickUpload();
      case UploadDelayElapsed => FinishUpload();
      case HideDelayElapsed => HideStatus();
    }
  }
}
