/** The show/hide decision of updateCursorState. */
module Cursor {
  import opened Wrappers

  /** The two PlayLayer flags the decision reads. */
  datatype PlayLayerState = PlayLayerState(hasCompletedLevel: bool, isPaused: bool)

  /** Which of the two platform calls is made. */
  datatype CursorAction = ShowCursor | HideCursor

  /** updateCursorState: showCursorInLevel is game variable "0024", read only when a
      PlayLayer exists. */
  function UpdateCursorState(visible: bool, playLayer: Option<PlayLayerState>, showCursorInLevel: bool)
    : (a: CursorAction)
    ensures a == ShowCursor <==>
      visible || playLayer.None? || playLayer.value.hasCompletedLevel
      || playLayer.value.isPaused || showCursorInLevel
  {
    var canShowInLevel :=
      match playLayer
      case None => true
      case Some(layer) => layer.hasCompletedLevel || layer.isPaused || showCursorInLevel;
    if visible || canShowInLevel then ShowCursor else HideCursor
  }

  /** The cursor is hidden only during active, unpaused play of an unfinished level,
      and asking for it to be visible always shows it. */
  lemma HiddenOnlyWhilePlaying(visible: bool, playLayer: Option<PlayLayerState>, showCursorInLevel: bool)
    ensures UpdateCursorState(visible, playLayer, showCursorInLevel) == HideCursor ==>
      !visible && playLayer.Some? && !playLayer.value.hasCompletedLevel && !playLayer.value.isPaused
      && !showCursorInLevel
    ensures UpdateCursorState(true, playLayer, showCursorInLevel) == ShowCursor
    ensures playLayer.None? ==> UpdateCursorState(visible, playLayer, showCursorInLevel) == ShowCursor
  {
  }
}
