/** The staleness guard of `useSyncManager`: a full resync that never runs
    twice at once, and the three triggers that decide when one is due (a
    suspension check on a timer, the tab becoming visible again, the browser
    coming back online). The clock, the visibility, the online flag and the
    fetch reply are inputs; the delayed release of the in-progress flag is
    its own transition. */
module SyncManager {
  import opened Wrappers
  import opened Products
  import opened Backend

  /** Five minutes between timer ticks means the device was asleep. */
  const SuspensionGap: int := 300000
  /** Visibility changes closer together than this are ignored. */
  const VisibilityThrottle: int := 60000
  /** A sync older than this is stale when the tab comes back. */
  const SyncStaleAfter: int := 60000
  /** Realtime silence longer than this is stale when the tab comes back. */
  const RealtimeStaleAfter: int := 120000

  /** The hook's timestamps and flags, and the two lists it writes. */
  datatype SyncState = SyncState(
    lastSync: int,
    lastRealtime: int,
    lastVisibility: int,
    inProgress: bool,
    isSyncing: bool,
    all: seq<Product>,
    displayed: seq<Product>)

  /** The state when the hook mounts at time `now`. */
  function Init(now: int, all: seq<Product>, displayed: seq<Product>): (s: SyncState)
    ensures s.lastSync == now && s.lastRealtime == now && s.lastVisibility == 0
    ensures !s.inProgress && !s.isSyncing
    ensures s.all == all && s.displayed == displayed
  {
    SyncState(now, now, 0, false, false, all, displayed)
  }

  /** `fullResync`: offline, or with a resync already running, nothing
      happens. Otherwise the in-progress and syncing flags go up, the whole
      table is fetched and, on success, replaces the canonical list while the
      displayed list becomes its projection for the view; on failure both
      lists stay as they were and an error toast is shown. `notify` adds the
      "syncing" and "updated" toasts. Clocks are never touched. */
  function FullResync(s: SyncState, view: View, online: bool, notify: bool,
                      reply: Result<seq<Product>, Fault>): (r: Step<SyncState>)
    ensures !online || s.inProgress ==> r == Step(s, [], [])
    ensures online && !s.inProgress ==>
      && r.requests == [FetchAll]
      && r.state.inProgress && r.state.isSyncing
      && (notify ==> |r.notices| >= 1 && r.notices[0] == Info("Sincronizando datos..."))
    ensures online && !s.inProgress && reply.Ok? ==>
      && r.state.all == reply.value
      && (forall p :: p in r.state.displayed <==> p in reply.value && (p.isProductHidden <==> view == Ocultos))
      && (notify ==> r.notices == [Info("Sincronizando datos..."), Success("Datos actualizados")])
      && (!notify ==> r.notices == [])
    ensures online && !s.inProgress && reply.Err? ==>
      && r.state.all == s.all && r.state.displayed == s.displayed
      && |r.notices| >= 1 && r.notices[|r.notices| - 1] == Failure("Error al sincronizar")
    ensures r.state.lastSync == s.lastSync && r.state.lastRealtime == s.lastRealtime
    ensures r.state.lastVisibility == s.lastVisibility
  {
    if !online || s.inProgress then Step(s, [], [])
    else
      var busy := s.(inProgress := true, isSyncing := true);
      var before := if notify then [Info("Sincronizando datos...")] else [];
      match reply
      case Ok(rows) =>
        var after := if notify then [Success("Datos actualizados")] else [];
        Step(busy.(all := rows, displayed := Project(rows, view)), before + after, [FetchAll])
      case Err(_) =>
        Step(busy, before + [Failure("Error al sincronizar")], [FetchAll])
  }

  /** The timer that fires two seconds after a resync, whatever its outcome. */
  function ReleaseResync(s: SyncState): (r: SyncState)
    ensures !r.inProgress && !r.isSyncing
    ensures r.(inProgress := s.inProgress, isSyncing := s.isSyncing) == s
  {
    s.(inProgress := false, isSyncing := false)
  }

  /** `updateLastRealtimeEvent`: record that a realtime event arrived at `now`. */
  function UpdateLastRealtimeEvent(s: SyncState, now: int): (r: SyncState)
    ensures r.lastRealtime == now
    ensures r.(lastRealtime := s.lastRealtime) == s
  {
    s.(lastRealtime := now)
  }

  /** `checkSuspension`, run every thirty seconds: a gap of more than five
      minutes since the last recorded sync attempts a silent resync; in every
      case the tick time becomes the last sync time. */
  function CheckSuspension(s: SyncState, view: View, now: int, online: bool,
                           reply: Result<seq<Product>, Fault>): (r: Step<SyncState>)
    ensures r.state.lastSync == now
    ensures now - s.lastSync > SuspensionGap ==>
      r == var q := FullResync(s, view, online, false, reply); q.(state := q.state.(lastSync := now))
    ensures now - s.lastSync <= SuspensionGap ==> r == Step(s.(lastSync := now), [], [])
  {
    var q := if now - s.lastSync > SuspensionGap then FullResync(s, view, online, false, reply)
             else Step(s, [], []);
    q.(state := q.state.(lastSync := now))
  }

  /** Whether the tab coming back at `now` finds the data stale. */
  predicate StaleOnReturn(s: SyncState, now: int) {
    now - s.lastSync > SyncStaleAfter || now - s.lastRealtime > RealtimeStaleAfter
  }

  /** `handleVisibilityChange`: a hidden tab, or a change less than a minute
      after the last resync-triggering one, is ignored altogether. Otherwise
      the last sync time becomes `now`; when the data is stale the change
      also becomes the last visibility change and a silent resync is
      attempted. */
  function HandleVisibilityChange(s: SyncState, view: View, visible: bool, now: int, online: bool,
                                  reply: Result<seq<Product>, Fault>): (r: Step<SyncState>)
    ensures !visible || now - s.lastVisibility < VisibilityThrottle ==> r == Step(s, [], [])
    ensures visible && now - s.lastVisibility >= VisibilityThrottle ==>
      && r.state.lastSync == now
      && (StaleOnReturn(s, now) ==> r.state.lastVisibility == now)
      && (StaleOnReturn(s, now) ==>
            r == var q := FullResync(s, view, online, false, reply);
                 q.(state := q.state.(lastSync := now, lastVisibility := now)))
      && (!StaleOnReturn(s, now) ==> r == Step(s.(lastSync := now), [], []))
  {
    if !visible then Step(s, [], [])
    else if now - s.lastVisibility < VisibilityThrottle then Step(s, [], [])
    else if StaleOnReturn(s, now) then
      var q := FullResync(s.(lastSync := now, lastVisibility := now), view, online, false, reply);
      q
    else Step(s.(lastSync := now), [], [])
  }

  /** `handleOnline`: announce the restored connection, then attempt a silent
      resync. */
  function HandleOnline(s: SyncState, view: View, online: bool,
                        reply: Result<seq<Product>, Fault>): (r: Step<SyncState>)
    ensures |r.notices| >= 1 && r.notices[0] == Success("Conexión restaurada")
    ensures r.state == FullResync(s, view, online, false, reply).state
    ensures r.requests == FullResync(s, view, online, false, reply).requests
  {
    var q := FullResync(s, view, online, false, reply);
    q.(notices := [Success("Conexión restaurada")] + q.notices)
  }

  /** What can happen to the sync manager, with the online flag and the
      reply a fetch started at that moment would get. */
  datatype SyncEvent =
    | Tick(now: int)
    | VisibilityChange(visible: bool, now: int)
    | BackOnline
    | RealtimeEvent(now: int)
    | ForceResync
    | Release
  datatype Trigger = Trigger(event: SyncEvent, online: bool, reply: Result<seq<Product>, Fault>)

  /** One trigger. */
  function Fire(s: SyncState, view: View, t: Trigger): Step<SyncState> {
    match t.event
    case Tick(now) => CheckSuspension(s, view, now, t.online, t.reply)
    case VisibilityChange(visible, now) => HandleVisibilityChange(s, view, visible, now, t.online, t.reply)
    case BackOnline => HandleOnline(s, view, t.online, t.reply)
    case RealtimeEvent(now) => Step(UpdateLastRealtimeEvent(s, now), [], [])
    case ForceResync => FullResync(s, view, t.online, true, t.reply)
    case Release => Step(ReleaseResync(s), [], [])
  }

  /** A run of triggers: the final state and every fetch issued, in order. */
  function Run(s: SyncState, view: View, ts: seq<Trigger>): (r: Step<SyncState>)
    decreases |ts|
  {
    if |ts| == 0 then Step(s, [], [])
    else
      var first := Fire(s, view, ts[0]);
      var rest := Run(first.state, view, ts[1..]);
      Step(rest.state, first.notices + rest.notices, first.requests + rest.requests)
  }

  /** One trigger never issues more than one fetch, and it issues one only
      from an idle state, leaving the resync marked as running. */
  lemma FireFetchesOnlyWhenIdle(s: SyncState, view: View, t: Trigger)
    ensures var r := Fire(s, view, t);
      && r.requests in {[], [FetchAll]}
      && (r.requests == [FetchAll] ==> !s.inProgress && r.state.inProgress)
      && (t.event != Release && s.inProgress ==> r.requests == [] && r.state.inProgress)
      && (r.requests == [] && t.event != Release ==> r.state.inProgress == s.inProgress)
  {
  }

  /** Mutual exclusion: until the release timer fires, however the triggers
      interleave, at most one fetch is issued, and none at all while a resync
      is already running. */
  lemma {:induction false} AtMostOneResyncUntilRelease(s: SyncState, view: View, ts: seq<Trigger>)
    requires forall i :: 0 <= i < |ts| ==> ts[i].event != Release
    ensures var r := Run(s, view, ts);
      && |r.requests| <= (if s.inProgress then 0 else 1)
      && (forall i :: 0 <= i < |r.requests| ==> r.requests[i] == FetchAll)
      && (s.inProgress ==> r.state.inProgress)
    decreases |ts|
  {
    if |ts| > 0 {
      var first := Fire(s, view, ts[0]);
      FireFetchesOnlyWhenIdle(s, view, ts[0]);
      AtMostOneResyncUntilRelease(first.state, view, ts[1..]);
    }
  }

  /** After a successful silent resync by any trigger the displayed list is
      the projection of the freshly fetched list for the current view. */
  lemma ResyncShowsProjection(s: SyncState, view: View, rows: seq<Product>)
    requires !s.inProgress
    ensures var r := FullResync(s, view, true, false, Ok(rows));
      && (view == Listado ==> r.state.displayed == Visible(rows))
      && (view == Ocultos ==> r.state.displayed == Hidden(rows))
  {
  }

  /** Two visibility changes less than a minute apart after a resync-triggering
      one: the second one is ignored. */
  lemma VisibilityThrottled(s: SyncState, view: View, t1: int, t2: int, online: bool,
                            reply1: Result<seq<Product>, Fault>, reply2: Result<seq<Product>, Fault>)
    requires t1 - s.lastVisibility >= VisibilityThrottle && StaleOnReturn(s, t1)
    requires t1 <= t2 < t1 + VisibilityThrottle
    ensures var a := HandleVisibilityChange(s, view, true, t1, online, reply1);
      var b := HandleVisibilityChange(a.state, view, true, t2, online, reply2);
      b == Step(a.state, [], [])
  {
  }
}
