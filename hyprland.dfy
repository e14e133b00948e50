/**
 * The geometry and events the window manager supplies to the simulation.
 * Only the record types are modelled: the IPC queries that fill them and the
 * event-listener thread are outside the model, so their results arrive as
 * parameters.
 */
module Hyprland {
  /** hyprland's opaque window `Address`, stable for the lifetime of a window. */
  datatype Address = Address(hex: string)

  /** A window in global compositor coordinates: its top-left corner and its width. */
  datatype WindowRect = WindowRect(address: Address, x: real, y: real, width: real)

  /** A monitor in global compositor coordinates, flagged when its active workspace is fullscreen. */
  datatype MonitorRect = MonitorRect(x: real, y: real, width: real, height: real, hasFullscreen: bool)

  /** The single event kind the listener sends, whatever changed in the window manager. */
  datatype HyprlandEvent = WindowsChanged

  /** What get_hyprland_windows and get_monitors_with_fullscreen_state report when they are queried. */
  datatype Snapshot = Snapshot(windows: seq<WindowRect>, monitors: seq<MonitorRect>)

  /** (min_x, min_y, max_x, max_y) of the area covered by all monitors, as the boot code receives it. */
  datatype ScreenBounds = ScreenBounds(minX: real, minY: real, maxX: real, maxY: real)

  /**
   * Every monitor that is not fullscreen has a positive width, so that a
   * respawn column drawn from it is a non-empty range.
   */
  predicate OpenMonitorsHaveWidth(monitors: seq<MonitorRect>) {
    forall i :: 0 <= i < |monitors| && !monitors[i].hasFullscreen ==> monitors[i].width > 0.0
  }
}
