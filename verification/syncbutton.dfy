/** The manual sync button: a press starts a forced resync unless the button
    is throttled, a sync is running or the browser is offline. Once that
    resync has finished a timer is started, and the throttle is lifted four
    seconds later. The throttle is kept twice, as rendered state and as a
    ref; both are modelled. */
module SyncButton {

  /** The button's throttle flag (state and ref) and its view of the network. */
  datatype ButtonState = ButtonState(throttled: bool, throttleRef: bool, isOnline: bool)

  /** The button as mounted, taking the browser's current online flag. */
  function InitButton(online: bool): (b: ButtonState)
    ensures !b.throttled && !b.throttleRef && b.isOnline == online
  {
    ButtonState(false, false, online)
  }

  /** `isDisabled`. */
  function IsDisabled(b: ButtonState, isSyncing: bool): (d: bool)
    ensures !d <==> TooltipText(b, isSyncing) == "Forzar sincronización"
    ensures Consistent(b) ==> (!d <==> HandleSync(b, isSyncing).fired)
  {
    b.throttled || isSyncing || !b.isOnline
  }

  /** The tooltip, by priority: offline, then syncing, then throttled. */
  function TooltipText(b: ButtonState, isSyncing: bool): (t: string)
    ensures !b.isOnline ==> t == "Sin conexión a internet"
    ensures b.isOnline && isSyncing ==> t == "Sincronizando..."
    ensures b.isOnline && !isSyncing && b.throttled ==> t == "Sincronización en espera"
    ensures b.isOnline && !isSyncing && !b.throttled ==> t == "Forzar sincronización"
  {
    if !b.isOnline then "Sin conexión a internet"
    else if isSyncing then "Sincronizando..."
    else if b.throttled then "Sincronización en espera"
    else "Forzar sincronización"
  }

  /** The button after a press, and whether the press started a forced resync. */
  datatype Press = Press(button: ButtonState, fired: bool)

  /** `handleSync`: throttled (by state or ref), syncing or offline, nothing
      happens; otherwise both throttle flags go up and the forced resync is
      started. */
  function HandleSync(b: ButtonState, isSyncing: bool): (r: Press)
    ensures r.fired <==> !b.throttled && !b.throttleRef && !isSyncing && b.isOnline
    ensures r.fired ==> r.button == ButtonState(true, true, b.isOnline)
    ensures !r.fired ==> r.button == b
  {
    if b.throttled || b.throttleRef || isSyncing then Press(b, false)
    else if !b.isOnline then Press(b, false)
    else Press(b.(throttleRef := true, throttled := true), true)
  }

  /** The timer that fires four seconds after the resync a press started has
      finished. */
  function ReleaseThrottle(b: ButtonState): (r: ButtonState)
    ensures !r.throttled && !r.throttleRef && r.isOnline == b.isOnline
  {
    b.(throttleRef := false, throttled := false)
  }

  /** The `online` and `offline` window events. */
  function SetOnline(b: ButtonState, online: bool): (r: ButtonState)
    ensures r.isOnline == online
    ensures r.throttled == b.throttled && r.throttleRef == b.throttleRef
  {
    b.(isOnline := online)
  }

  /** The throttle state and the throttle ref agree. */
  predicate Consistent(b: ButtonState) {
    b.throttled == b.throttleRef
  }

  /** Every transition keeps state and ref in step, so a reachable button
      fires exactly when it is rendered enabled. */
  lemma PressFiresIffEnabled(b: ButtonState, isSyncing: bool, online: bool)
    requires Consistent(b)
    ensures Consistent(InitButton(online))
    ensures Consistent(HandleSync(b, isSyncing).button)
    ensures Consistent(ReleaseThrottle(b)) && Consistent(SetOnline(b, online))
    ensures HandleSync(b, isSyncing).fired <==> !IsDisabled(b, isSyncing)
  {
  }

  /** The tooltip invites a sync exactly when the button is enabled, and
      names the first reason that disables it otherwise. */
  lemma TooltipMatchesDisabled(b: ButtonState, isSyncing: bool)
    ensures TooltipText(b, isSyncing) == "Forzar sincronización" <==> !IsDisabled(b, isSyncing)
    ensures IsDisabled(b, isSyncing) ==>
      TooltipText(b, isSyncing) in {"Sin conexión a internet", "Sincronizando...", "Sincronización en espera"}
  {
  }

  /** A second press before the release timer fires does nothing, whatever
      the sync and network state by then. */
  lemma SecondPressThrottled(b: ButtonState, syncing1: bool, syncing2: bool, online: bool)
    requires HandleSync(b, syncing1).fired
    ensures var b1 := SetOnline(HandleSync(b, syncing1).button, online);
      HandleSync(b1, syncing2) == Press(b1, false)
  {
  }
}
