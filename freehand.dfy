/**
 * The component's state and event handlers: the fields React keeps for the
 * sketching app, the persisted copy of the drawing list, and one method per
 * handler.  Browser effects (the canvas bitmap, the clock, image encoding) are
 * parameters: the handler receives what the browser would have returned.
 */
module FreeHand {
  import opened Wrappers
  import opened DrawingStore
  import RecentColors
  import opened Strokes
  import Decimal

  const DEFAULT_COLOR := "#000000"
  const DEFAULT_LINE_WIDTH := 8

  const SAVED_PREFIX := "Saved! ("
  const SAVED_SUFFIX := " total)"

  /** The status message shown after a save, reporting the number of drawings. */
  function SavedStatus(count: nat): string {
    SAVED_PREFIX + Decimal.NatToString(count) + SAVED_SUFFIX
  }

  /** Reads the drawing count back out of a status message, if it is one. */
  function SavedCount(status: string): Option<nat> {
    if |status| > |SAVED_PREFIX| + |SAVED_SUFFIX|
       && status[..|SAVED_PREFIX|] == SAVED_PREFIX
       && status[|status| - |SAVED_SUFFIX|..] == SAVED_SUFFIX
       && Decimal.AllDigits(status[|SAVED_PREFIX|..|status| - |SAVED_SUFFIX|])
    then Some(Decimal.ParseDigits(status[|SAVED_PREFIX|..|status| - |SAVED_SUFFIX|]))
    else None
  }

  /** The status message names the count it was built from, so it tells counts apart. */
  lemma SavedStatusCount(count: nat)
    ensures SavedCount(SavedStatus(count)) == Some(count)
  {
    var s := SavedStatus(count);
    var digits := Decimal.NatToString(count);
    assert s[..|SAVED_PREFIX|] == SAVED_PREFIX;
    assert s[|s| - |SAVED_SUFFIX|..] == SAVED_SUFFIX;
    assert s[|SAVED_PREFIX|..|s| - |SAVED_SUFFIX|] == digits;
    Decimal.ParseNatToString(count);
  }

  class App {
    // useState fields of the component
    var isDrawing: bool
    var color: string
    var lineWidth: int
    var hasContext: bool
    var currentStroke: seq<Point>
    var isExpanded: bool
    var showMenu: bool
    var drawings: seq<Drawing>
    var currentDrawingId: Option<int>
    var saveStatus: string
    var recentColors: seq<string>

    /** The `drawings` entry of browser storage; `None` while nothing was ever written. */
    var persisted: Option<seq<Drawing>>
    /** Deferred return-to-menu callbacks scheduled and not yet run. */
    var pendingReturns: nat

    /** What the handlers keep true of the state between events. */
    ghost predicate Valid()
      reads this
    {
      (isDrawing ==> |currentStroke| > 0)
      && (!isDrawing ==> currentStroke == [])
      && 0 < |recentColors| <= RecentColors.CAPACITY
      && RecentColors.Distinct(recentColors)
    }

    // Groups of fields, so that each handler can say which groups it leaves alone.

    ghost function StrokeState(): (bool, seq<Point>)
      reads this
    {
      (isDrawing, currentStroke)
    }

    ghost function ToolState(): (string, int, seq<string>, bool)
      reads this
    {
      (color, lineWidth, recentColors, isExpanded)
    }

    ghost function StoreState(): (seq<Drawing>, Option<seq<Drawing>>)
      reads this
    {
      (drawings, persisted)
    }

    ghost function NavState(): (bool, Option<int>, string, nat)
      reads this
    {
      (showMenu, currentDrawingId, saveStatus, pendingReturns)
    }

    /** The initial state of the component; `stored` is what browser storage holds. */
    constructor (stored: Option<seq<Drawing>>)
      ensures Valid()
      ensures !isDrawing && currentStroke == [] && !hasContext
      ensures color == DEFAULT_COLOR && lineWidth == DEFAULT_LINE_WIDTH
      ensures recentColors == RecentColors.INITIAL && !isExpanded
      ensures showMenu && currentDrawingId == None && saveStatus == "" && pendingReturns == 0
      ensures drawings == [] && persisted == stored
    {
      isDrawing := false;
      color := DEFAULT_COLOR;
      lineWidth := DEFAULT_LINE_WIDTH;
      hasContext := false;
      currentStroke := [];
      isExpanded := false;
      showMenu := true;
      drawings := [];
      currentDrawingId := None;
      saveStatus := "";
      recentColors := RecentColors.INITIAL;
      persisted := stored;
      pendingReturns := 0;
    }

    /** The mount effect: take the stored list into memory when there is one. */
    method LoadSaved()
      requires Valid()
      modifies this
      ensures Valid()
      ensures persisted.Some? ==> drawings == persisted.value
      ensures persisted.None? ==> drawings == old(drawings)
      ensures persisted == old(persisted)
      ensures StrokeState() == old(StrokeState()) && ToolState() == old(ToolState())
      ensures NavState() == old(NavState()) && hasContext == old(hasContext)
    {
      if persisted.Some? {
        drawings := persisted.value;
      }
    }

    /** The canvas-setup effect, which runs only on the canvas view, obtains a 2D context and stores it. */
    method AttachContext()
      requires Valid() && !showMenu
      modifies this
      ensures Valid() && hasContext
      ensures StrokeState() == old(StrokeState()) && ToolState() == old(ToolState())
      ensures StoreState() == old(StoreState()) && NavState() == old(NavState())
    {
      hasContext := true;
    }

    // ------------------------------------------------------------ stroke buffer

    /** Pointer down: begin a stroke at `p`, unless there is no context yet. */
    method StartDrawing(p: Point)
      requires Valid()
      modifies this
      ensures Valid()
      ensures old(hasContext) ==> isDrawing && currentStroke == [p]
      ensures !old(hasContext) ==> StrokeState() == old(StrokeState())
      ensures hasContext == old(hasContext) && ToolState() == old(ToolState())
      ensures StoreState() == old(StoreState()) && NavState() == old(NavState())
    {
      if !hasContext {
        return;
      }
      isDrawing := true;
      currentStroke := [p];
    }

    /**
     * Pointer move: while a stroke is active, append `p` and draw the segment
     * from the previous sample to it; otherwise do nothing and draw nothing.
     */
    method Draw(p: Point) returns (seg: Option<Segment>)
      requires Valid()
      modifies this
      ensures Valid()
      ensures old(isDrawing) && hasContext ==>
        currentStroke == old(currentStroke) + [p]
        && seg == Some(Segment(old(currentStroke)[|old(currentStroke)| - 1], p))
      ensures !(old(isDrawing) && hasContext) ==> currentStroke == old(currentStroke) && seg == None
      ensures seg.Some? ==> |currentStroke| >= 2
      ensures seg.Some? ==> Segments(currentStroke) == Segments(old(currentStroke)) + [seg.value]
      ensures isDrawing == old(isDrawing) && hasContext == old(hasContext)
      ensures ToolState() == old(ToolState())
      ensures StoreState() == old(StoreState()) && NavState() == old(NavState())
    {
      if !isDrawing || !hasContext {
        return None;
      }
      var previous := currentStroke;
      currentStroke := previous + [p];
      if |previous| > 0 {
        seg := Some(Segment(previous[|previous| - 1], p));
        SegmentsExtend(previous, p);
      } else {
        seg := None;
      }
    }

    /** Pointer up or cancel: end the stroke and discard its samples. */
    method StopDrawing()
      requires Valid()
      modifies this
      ensures Valid()
      ensures !isDrawing && currentStroke == []
      ensures hasContext == old(hasContext) && ToolState() == old(ToolState())
      ensures StoreState() == old(StoreState()) && NavState() == old(NavState())
    {
      isDrawing := false;
      currentStroke := [];
    }

    // ------------------------------------------------------------ drawing store

    /**
     * The explicit save of the canvas snapshot `snapshot` at time `now`; a no-op
     * when the canvas is not mounted.
     */
    method SaveDrawing(canvasMounted: bool, snapshot: string, now: int)
      requires Valid()
      modifies this
      ensures Valid()
      ensures canvasMounted ==>
        drawings == SaveUpdate(old(drawings), currentDrawingId, NewRecord(currentDrawingId, snapshot, now))
        && persisted == Some(drawings)
      ensures !canvasMounted ==> StoreState() == old(StoreState())
      ensures StrokeState() == old(StrokeState()) && ToolState() == old(ToolState())
      ensures NavState() == old(NavState()) && hasContext == old(hasContext)
    {
      if !canvasMounted {
        return;
      }
      var record := NewRecord(currentDrawingId, snapshot, now);
      var updated := SaveUpdate(drawings, currentDrawingId, record);
      drawings := updated;
      persisted := Some(updated);
    }

    /** Delete the drawing `id` from memory and from storage. */
    method DeleteDrawing(id: int)
      requires Valid()
      modifies this
      ensures Valid()
      ensures drawings == RemoveId(old(drawings), id) && persisted == Some(drawings)
      ensures UniqueIds(old(drawings)) ==> UniqueIds(drawings)
      ensures StrokeState() == old(StrokeState()) && ToolState() == old(ToolState())
      ensures NavState() == old(NavState()) && hasContext == old(hasContext)
    {
      var updated := RemoveId(drawings, id);
      if UniqueIds(drawings) {
        RemoveIdKeepsUnique(drawings, id);
      }
      drawings := updated;
      persisted := Some(updated);
    }

    // ------------------------------------------------------------ navigation

    /** Open a fresh canvas whose id is the current time `now`. */
    method CreateNewDrawing(now: int)
      requires Valid()
      modifies this
      ensures Valid()
      ensures currentDrawingId == Some(now) && !showMenu
      ensures saveStatus == old(saveStatus) && pendingReturns == old(pendingReturns)
      ensures StoreState() == old(StoreState())
      ensures StrokeState() == old(StrokeState()) && ToolState() == old(ToolState())
      ensures hasContext == old(hasContext)
    {
      currentDrawingId := Some(now);
      showMenu := false;
    }

    /** Open the saved drawing `id` on the canvas. */
    method LoadDrawing(id: int)
      requires Valid()
      modifies this
      ensures Valid()
      ensures currentDrawingId == Some(id) && !showMenu
      ensures saveStatus == old(saveStatus) && pendingReturns == old(pendingReturns)
      ensures StoreState() == old(StoreState())
      ensures StrokeState() == old(StrokeState()) && ToolState() == old(ToolState())
      ensures hasContext == old(hasContext)
    {
      currentDrawingId := Some(id);
      showMenu := false;
    }

    /**
     * The back button.  With a mounted canvas and a truthy active id it upserts
     * the snapshot, reports the new count and schedules the deferred return;
     * otherwise it returns to the menu at once and stores nothing.
     */
    method BackToMenu(canvasMounted: bool, snapshot: string, now: int)
      requires Valid()
      modifies this
      ensures Valid()
      ensures canvasMounted && Truthy(old(currentDrawingId)) ==>
        drawings == Upsert(old(drawings), NewRecord(old(currentDrawingId), snapshot, now))
        && persisted == Some(drawings)
        && saveStatus == SavedStatus(|drawings|)
        && pendingReturns == old(pendingReturns) + 1
        && showMenu == old(showMenu) && currentDrawingId == old(currentDrawingId)
      ensures UniqueIds(old(drawings)) ==> UniqueIds(drawings)
      ensures !(canvasMounted && Truthy(old(currentDrawingId))) ==>
        StoreState() == old(StoreState())
        && showMenu && currentDrawingId == None && saveStatus == ""
        && pendingReturns == old(pendingReturns)
      ensures StrokeState() == old(StrokeState()) && ToolState() == old(ToolState())
      ensures hasContext == old(hasContext)
    {
      saveStatus := "Saving...";
      if canvasMounted && Truthy(currentDrawingId) {
        var record := NewRecord(currentDrawingId, snapshot, now);
        ghost var before := drawings;
        SaveAndScheduleReturn(record);
        if UniqueIds(before) {
          UpsertKeepsUnique(before, record);
        }
      } else {
        showMenu := true;
        currentDrawingId := None;
        saveStatus := "";
      }
    }

    /**
     * The state update run for a save on the way back: upsert `record`, write
     * storage, report the count and schedule the deferred return.
     */
    method SaveAndScheduleReturn(record: Drawing)
      requires Valid()
      requires Truthy(currentDrawingId) && record.id == currentDrawingId.value
      modifies this
      ensures Valid()
      ensures drawings == Upsert(old(drawings), record) && persisted == Some(drawings)
      ensures saveStatus == SavedStatus(|drawings|) && pendingReturns == old(pendingReturns) + 1
      ensures showMenu == old(showMenu) && currentDrawingId == old(currentDrawingId)
      ensures StrokeState() == old(StrokeState()) && ToolState() == old(ToolState())
      ensures hasContext == old(hasContext)
    {
      var updated := Upsert(drawings, record);
      saveStatus := SavedStatus(|updated|);
      pendingReturns := pendingReturns + 1;
      drawings := updated;
      persisted := Some(updated);
    }

    /** The deferred callback scheduled by a save-and-return: back to the menu. */
    method FinishReturn()
      requires Valid() && pendingReturns > 0
      modifies this
      ensures Valid()
      ensures showMenu && currentDrawingId == None && saveStatus == ""
      ensures pendingReturns == old(pendingReturns) - 1
      ensures StoreState() == old(StoreState())
      ensures StrokeState() == old(StrokeState()) && ToolState() == old(ToolState())
      ensures hasContext == old(hasContext)
    {
      showMenu := true;
      currentDrawingId := None;
      saveStatus := "";
      pendingReturns := pendingReturns - 1;
    }

    // ------------------------------------------------------------ tools

    /** Pick a colour from the picker or the presets: it becomes active and most recent. */
    method SelectColor(c: string)
      requires Valid()
      modifies this
      ensures Valid()
      ensures color == c && recentColors == RecentColors.Select(old(recentColors), c)
      ensures lineWidth == old(lineWidth) && isExpanded == old(isExpanded)
      ensures StrokeState() == old(StrokeState()) && StoreState() == old(StoreState())
      ensures NavState() == old(NavState()) && hasContext == old(hasContext)
    {
      color := c;
      recentColors := RecentColors.Select(recentColors, c);
    }

    /** Pick a colour from the recent list: it becomes active, the list stays as it is. */
    method SetColor(c: string)
      requires Valid()
      modifies this
      ensures Valid()
      ensures color == c && recentColors == old(recentColors)
      ensures lineWidth == old(lineWidth) && isExpanded == old(isExpanded)
      ensures StrokeState() == old(StrokeState()) && StoreState() == old(StoreState())
      ensures NavState() == old(NavState()) && hasContext == old(hasContext)
    {
      color := c;
    }

    /** Pick a brush size. */
    method SetLineWidth(size: int)
      requires Valid()
      modifies this
      ensures Valid()
      ensures lineWidth == size
      ensures color == old(color) && recentColors == old(recentColors) && isExpanded == old(isExpanded)
      ensures StrokeState() == old(StrokeState()) && StoreState() == old(StoreState())
      ensures NavState() == old(NavState()) && hasContext == old(hasContext)
    {
      lineWidth := size;
    }

    /** Open or close the palette panel. */
    method TogglePalette()
      requires Valid()
      modifies this
      ensures Valid()
      ensures isExpanded == !old(isExpanded)
      ensures color == old(color) && lineWidth == old(lineWidth) && recentColors == old(recentColors)
      ensures StrokeState() == old(StrokeState()) && StoreState() == old(StoreState())
      ensures NavState() == old(NavState()) && hasContext == old(hasContext)
    {
      isExpanded := !isExpanded;
    }
  }

  /** A first drawing saved into empty storage, driven through the handlers' contracts. */
  method FirstDrawingSession(t0: int, snapshot: string)
    requires t0 > 0
  {
    var app := new App(None);
    app.LoadSaved();
    assert app.drawings == [];
    app.CreateNewDrawing(t0);
    app.AttachContext();
    app.StartDrawing(Point(0, 0));
    var seg := app.Draw(Point(3, 4));
    assert seg == Some(Segment(Point(0, 0), Point(3, 4)));
    app.StopDrawing();
    app.BackToMenu(true, snapshot, t0 + 1);
    assert app.drawings == [Drawing(t0, snapshot, snapshot, t0 + 1)];
    assert app.saveStatus == SavedStatus(1);
    app.FinishReturn();
    assert app.showMenu && app.currentDrawingId == None;
  }

  /**
   * Two back presses on a new drawing schedule two deferred returns; after the
   * first one runs, the user reopens the drawing from the gallery, and the
   * second one still fires and sends the app back to the menu.
   */
  method DoubleBackSession(id: int, snapshot: string, t: int)
    requires id != 0
  {
    var app := new App(None);
    app.LoadSaved();
    app.CreateNewDrawing(id);
    app.BackToMenu(true, snapshot, t);
    app.BackToMenu(true, snapshot, t + 1);
    assert app.pendingReturns == 2;
    app.FinishReturn();
    assert app.showMenu && app.drawings == [Drawing(id, snapshot, snapshot, t + 1)];
    app.LoadDrawing(app.drawings[0].id);
    assert !app.showMenu && app.currentDrawingId == Some(id);
    app.FinishReturn();
    assert app.showMenu && app.currentDrawingId == None && app.pendingReturns == 0;
  }

  /** Deleting one of two stored drawings leaves the other record, in memory and in storage. */
  method DeleteSession() {
    var a := Drawing(1, "a", "a", 10);
    var b := Drawing(2, "b", "b", 20);
    var other := new App(Some([a, b]));
    other.LoadSaved();
    other.DeleteDrawing(1);
    assert other.drawings == [b] by {
      RemoveIdUnique([a, b], 1, 0);
    }
    assert other.persisted == Some([b]);
  }
}
