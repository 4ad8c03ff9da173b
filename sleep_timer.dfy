/**
 * The sleep timer as the main screen's fragment drives it: a 15-minute timer that can be started
 * only while a station plays, a snackbar that shows the time left, and the playback and timer flags
 * the fragment keeps in the shared preferences. Also the collection screen's choice between the
 * station list and the "call to action" view, and the one-time import of initial station data.
 *
 * The preferences, the sleep-timer service, the snackbar and the toasts are framework objects;
 * here they are a record of stored values, a log of requests to the service, the snackbar's text
 * and visibility, and a log of toasts.
 */
module SleepTimer {
  import opened Options
  import opened TimeFormat

  /** The playback-change code for "playback stopped". */
  const PlaybackStopped := 3

  /** The sleep timer's fixed duration: 15 minutes in milliseconds. */
  const SleepDuration := 900000

  /** The layout code of the list view, the default layout. */
  const RecyclerViewList := 0

  /** What the fragment reads from and writes to the shared preferences; `None` is a key never written. */
  datatype Prefs = Prefs(
    stationIdSelected: Option<int>,
    playback: Option<bool>,
    twoPane: Option<bool>,
    timerRunning: Option<bool>,
    layoutViewManager: Option<int>,
    stationIdCurrentlyPlaying: Option<int>,
    initialDataLoaded: Option<bool>)

  /** `getBoolean(key, default)` and `getInt(key, default)`: the stored value, or the default for a key never written. */
  function Stored<T>(v: Option<T>, default: T): (x: T)
    ensures v.Some? ==> x == v.value
    ensures v.None? ==> x == default
  {
    match v
    case Some(y) => y
    case None => default
  }

  /** A request sent to the sleep-timer service. */
  datatype TimerRequest = Start(duration: int) | Stop

  /** The toasts the fragment shows for the timer and the initial import. */
  datatype Toast =
    | TimerStartUnable
    | TimerActivated
    | TimerDurationIncreased(added: string)
    | TimerCancelled
    | Online
    | NotOnline

  /** The timer's snackbar: its text and whether it is on screen. */
  datatype Snackbar = Snackbar(text: string, shown: bool)

  /** The snackbar text for `remaining` milliseconds: the message, followed by the time left when there is some. */
  function TimerText(message: string, remaining: int): (text: string)
    ensures remaining > 0 ==> text == message + ReadableTime(remaining)
    ensures remaining <= 0 ==> text == message
  {
    if remaining > 0 then message + ReadableTime(remaining) else message
  }

  class MainActivityFragment {
    var prefs: Prefs
    var stationIdSelected: int
    var playback: bool
    var twoPane: bool
    var sleepTimerRunning: bool
    var layoutViewManager: int
    /** Whether the sleep-timer service object exists. */
    var serviceCreated: bool
    var timerRequests: seq<TimerRequest>
    /** The snackbar message that precedes the time left. */
    var notificationMessage: string
    var notification: Option<Snackbar>
    var toasts: seq<Toast>
    var emptyViewVisible: bool
    var listVisible: bool
    var refreshButtonVisible: bool
    /** Whether the fragment asked the main activity to remove its player pane. */
    var playFragmentRemoved: bool
    var initialDialogShown: bool

    /** The service object is created with the fragment and never dropped. */
    ghost predicate Valid()
      reads this
    {
      serviceCreated
    }

    /** The fragment's flags hold what the preferences say, with the source's defaults for unwritten keys. */
    ghost predicate Loaded()
      reads this
    {
      && stationIdSelected == Stored(prefs.stationIdSelected, 0)
      && playback == Stored(prefs.playback, false)
      && twoPane == Stored(prefs.twoPane, false)
      && sleepTimerRunning == Stored(prefs.timerRunning, false)
      && layoutViewManager == Stored(prefs.layoutViewManager, RecyclerViewList)
    }

    /**
     * `onCreate`, as far as the timer goes: the snackbar message is the "timer set" text and a
     * space, the service object is created, and the flags are loaded from the preferences.
     */
    constructor (stored: Prefs, timerSetText: string)
      ensures Valid() && Loaded()
      ensures prefs == stored && notificationMessage == timerSetText + " "
      ensures timerRequests == [] && notification == None && toasts == []
      ensures !playFragmentRemoved && !initialDialogShown
    {
      prefs := stored;
      notificationMessage := timerSetText + " ";
      serviceCreated := true;
      timerRequests := [];
      notification := None;
      toasts := [];
      emptyViewVisible := false;
      listVisible := false;
      refreshButtonVisible := false;
      playFragmentRemoved := false;
      initialDialogShown := false;
      new;
      LoadAppState();
    }

    /** `loadAppState`: every flag is read back from the preferences. */
    method LoadAppState()
      modifies this`stationIdSelected, this`playback, this`twoPane, this`sleepTimerRunning, this`layoutViewManager
      ensures Loaded()
    {
      stationIdSelected := Stored(prefs.stationIdSelected, 0);
      playback := Stored(prefs.playback, false);
      twoPane := Stored(prefs.twoPane, false);
      sleepTimerRunning := Stored(prefs.timerRunning, false);
      layoutViewManager := Stored(prefs.layoutViewManager, RecyclerViewList);
    }

    /**
     * `saveAppState`: the station currently selected app-wide (`currentStationId`), the playback
     * flag and the timer flag are written; nothing else in the preferences changes.
     */
    method SaveAppState(currentStationId: int)
      modifies this`prefs
      ensures prefs == old(prefs).(stationIdCurrentlyPlaying := Some(currentStationId),
                                   playback := Some(playback), timerRunning := Some(sleepTimerRunning))
      ensures Stored(prefs.playback, false) == playback && Stored(prefs.timerRunning, false) == sleepTimerRunning
      ensures Loaded() <==> (stationIdSelected == Stored(prefs.stationIdSelected, 0)
                             && twoPane == Stored(prefs.twoPane, false)
                             && layoutViewManager == Stored(prefs.layoutViewManager, RecyclerViewList))
    {
      prefs := prefs.(stationIdCurrentlyPlaying := Some(currentStationId),
                      playback := Some(playback), timerRunning := Some(sleepTimerRunning));
    }

    /** `showSleepTimerNotification`: a new snackbar on screen with the message and the time left. */
    method ShowSleepTimerNotification(remaining: int)
      modifies this`notification
      ensures notification == Some(Snackbar(TimerText(notificationMessage, remaining), true))
    {
      var message := if remaining > 0 then notificationMessage + ReadableTime(remaining) else notificationMessage;
      notification := Some(Snackbar(message, true));
    }

    /** `startSleepTimer`: the service is asked to (re)start with `duration`, its snackbar shows, and the timer runs. */
    method StartSleepTimer(duration: int)
      modifies this`serviceCreated, this`timerRequests, this`notification, this`sleepTimerRunning
      ensures serviceCreated && sleepTimerRunning
      ensures timerRequests == old(timerRequests) + [Start(duration)]
      ensures notification == Some(Snackbar(TimerText(notificationMessage, duration), true))
    {
      if !serviceCreated {
        serviceCreated := true;
      }
      timerRequests := timerRequests + [Start(duration)];
      ShowSleepTimerNotification(duration);
      sleepTimerRunning := true;
    }

    /**
     * `stopSleepTimer`: the service, if any, is asked to stop, a snackbar on screen is dismissed,
     * the timer no longer runs, and a "cancelled" toast shows.
     */
    method StopSleepTimer()
      modifies this`timerRequests, this`notification, this`sleepTimerRunning, this`toasts
      ensures !sleepTimerRunning
      ensures timerRequests == old(timerRequests) + (if serviceCreated then [Stop] else [])
      ensures notification == (if old(notification).Some? && old(notification).value.shown
                               then Some(old(notification).value.(shown := false)) else old(notification))
      ensures toasts == old(toasts) + [TimerCancelled]
    {
      if serviceCreated {
        timerRequests := timerRequests + [Stop];
      }
      if notification.Some? && notification.value.shown {
        notification := Some(notification.value.(shown := false));
      }
      sleepTimerRunning := false;
      toasts := toasts + [TimerCancelled];
    }

    /**
     * The snackbar's cancel action: the service is asked to stop, the timer no longer runs, the
     * state is saved, and a "cancelled" toast shows.
     */
    method CancelFromNotification(currentStationId: int)
      requires Valid()
      modifies this`timerRequests, this`sleepTimerRunning, this`prefs, this`toasts
      ensures !sleepTimerRunning && timerRequests == old(timerRequests) + [Stop]
      ensures prefs == old(prefs).(stationIdCurrentlyPlaying := Some(currentStationId),
                                   playback := Some(playback), timerRunning := Some(false))
      ensures toasts == old(toasts) + [TimerCancelled]
    {
      timerRequests := timerRequests + [Stop];
      sleepTimerRunning := false;
      SaveAppState(currentStationId);
      toasts := toasts + [TimerCancelled];
    }

    /**
     * `handleMenuSleepTimerClick`. The flags are first reloaded. Then, only while a station plays,
     * the timer is (re)started for 15 minutes, with an "activated" toast when it was off and an
     * "increased by 15:00" toast when it was on. Neither playing nor running: only an "unable to
     * start" toast. Not playing but running: nothing at all.
     */
    method HandleMenuSleepTimerClick()
      requires Valid()
      modifies this`stationIdSelected, this`playback, this`twoPane, this`sleepTimerRunning, this`layoutViewManager,
               this`serviceCreated, this`timerRequests, this`notification, this`toasts
      ensures Valid() && playback == Stored(prefs.playback, false)
      ensures stationIdSelected == Stored(prefs.stationIdSelected, 0) && twoPane == Stored(prefs.twoPane, false)
              && layoutViewManager == Stored(prefs.layoutViewManager, RecyclerViewList)
      ensures playback ==> sleepTimerRunning
      ensures timerRequests != old(timerRequests) ==> playback
      ensures playback ==> timerRequests == old(timerRequests) + [Start(SleepDuration)]
      ensures playback ==> notification == Some(Snackbar(notificationMessage + ReadableTime(SleepDuration), true))
      ensures playback ==> toasts == old(toasts) + [if Stored(prefs.timerRunning, false)
                                                   then TimerDurationIncreased(ReadableTime(SleepDuration))
                                                   else TimerActivated]
      ensures !playback ==> Loaded() && timerRequests == old(timerRequests) && notification == old(notification)
      ensures !playback ==> toasts == old(toasts) + (if sleepTimerRunning then [] else [TimerStartUnable])
    {
      LoadAppState();
      var duration := SleepDuration;
      assert TimerText(notificationMessage, duration) == notificationMessage + ReadableTime(SleepDuration);
      if !playback && !sleepTimerRunning {
        toasts := toasts + [TimerStartUnable];
      } else if playback && !sleepTimerRunning {
        StartSleepTimer(duration);
        toasts := toasts + [TimerActivated];
      } else if playback {
        StartSleepTimer(duration);
        toasts := toasts + [TimerDurationIncreased(ReadableTime(duration))];
      }
    }

    /**
     * The receiver for the timer service's updates. With a snackbar and time left, only the
     * snackbar's text changes. With a snackbar and no time left, the snackbar is dismissed, playback
     * and the timer are off, and both are saved. Without a snackbar nothing happens.
     */
    method OnTimerUpdate(remaining: int, currentStationId: int)
      modifies this`notification, this`playback, this`sleepTimerRunning, this`prefs
      ensures old(notification).None? ==>
                notification == None && playback == old(playback) && sleepTimerRunning == old(sleepTimerRunning)
                && prefs == old(prefs)
      ensures old(notification).Some? && remaining > 0 ==>
                notification == Some(old(notification).value.(text := notificationMessage + ReadableTime(remaining)))
                && playback == old(playback) && sleepTimerRunning == old(sleepTimerRunning) && prefs == old(prefs)
      ensures old(notification).Some? && remaining <= 0 ==>
                notification == Some(old(notification).value.(shown := false)) && !playback && !sleepTimerRunning
                && prefs == old(prefs).(stationIdCurrentlyPlaying := Some(currentStationId),
                                        playback := Some(false), timerRunning := Some(false))
    {
      if notification.Some? && remaining > 0 {
        notification := Some(notification.value.(text := notificationMessage + ReadableTime(remaining)));
      } else if notification.Some? {
        notification := Some(notification.value.(shown := false));
        playback := false;
        sleepTimerRunning := false;
        SaveAppState(currentStationId);
      }
    }

    /**
     * The fragment's reaction to a playback change: on "playback stopped" the flags are reloaded
     * and a running timer is stopped (the service object always exists); every other code changes
     * nothing.
     */
    method HandlePlaybackStateChanges(code: int)
      requires Valid()
      modifies this`stationIdSelected, this`playback, this`twoPane, this`sleepTimerRunning, this`layoutViewManager,
               this`timerRequests, this`notification, this`toasts
      ensures code != PlaybackStopped ==>
                stationIdSelected == old(stationIdSelected) && playback == old(playback) && twoPane == old(twoPane)
                && sleepTimerRunning == old(sleepTimerRunning) && layoutViewManager == old(layoutViewManager)
                && timerRequests == old(timerRequests) && notification == old(notification) && toasts == old(toasts)
      ensures code == PlaybackStopped ==> !sleepTimerRunning && playback == Stored(prefs.playback, false)
      ensures code == PlaybackStopped ==>
                stationIdSelected == Stored(prefs.stationIdSelected, 0) && twoPane == Stored(prefs.twoPane, false)
                && layoutViewManager == Stored(prefs.layoutViewManager, RecyclerViewList)
      ensures code == PlaybackStopped ==>
                timerRequests == old(timerRequests) + (if Stored(prefs.timerRunning, false) then [Stop] else [])
      ensures code == PlaybackStopped && !Stored(prefs.timerRunning, false) ==>
                Loaded() && notification == old(notification) && toasts == old(toasts)
      ensures code == PlaybackStopped && Stored(prefs.timerRunning, false) ==>
                toasts == old(toasts) + [TimerCancelled]
                && notification == (if old(notification).Some? && old(notification).value.shown
                                    then Some(old(notification).value.(shown := false)) else old(notification))
    {
      if code == PlaybackStopped {
        LoadAppState();
        if sleepTimerRunning && serviceCreated {
          StopSleepTimer();
        }
      }
    }

    /**
     * `toggleActionCall`: the call-to-action view shows exactly when the collection is empty and
     * the list exactly when it is not; an empty collection in two-pane mode also removes the player
     * pane. The "refresh initial data" button shows exactly while the initial data is not loaded.
     */
    method ToggleActionCall(itemCount: nat, hostIsMainActivity: bool)
      modifies this`emptyViewVisible, this`listVisible, this`playFragmentRemoved, this`refreshButtonVisible
      ensures emptyViewVisible <==> itemCount == 0
      ensures listVisible <==> itemCount != 0
      ensures playFragmentRemoved == (old(playFragmentRemoved) || (itemCount == 0 && twoPane && hostIsMainActivity))
      ensures refreshButtonVisible <==> !Stored(prefs.initialDataLoaded, false)
    {
      if itemCount == 0 {
        emptyViewVisible := true;
        listVisible := false;
        if twoPane && hostIsMainActivity {
          playFragmentRemoved := true;
        }
      } else {
        emptyViewVisible := false;
        listVisible := true;
      }
      var initialDataLoaded := Stored(prefs.initialDataLoaded, false);
      if !initialDataLoaded {
        refreshButtonVisible := true;
      } else {
        refreshButtonVisible := false;
      }
    }

    /**
     * `runInitialDataRefreshIfFirstTime`. Once the initial data is marked loaded, only the views
     * are toggled. Before that, an empty database shows the call to action and, when online, the
     * import dialog; a non-empty one marks the initial data loaded. The mark is never set while the
     * database is empty, and never cleared.
     */
    method RunInitialDataRefreshIfFirstTime(stationCount: nat, online: bool, itemCount: nat, hostIsMainActivity: bool)
      modifies this`prefs, this`emptyViewVisible, this`listVisible, this`playFragmentRemoved,
               this`refreshButtonVisible, this`toasts, this`initialDialogShown
      ensures Stored(old(prefs).initialDataLoaded, false) ==>
                prefs == old(prefs) && (emptyViewVisible <==> itemCount == 0) && (listVisible <==> itemCount != 0)
                && !refreshButtonVisible && toasts == old(toasts) && initialDialogShown == old(initialDialogShown)
                && playFragmentRemoved == (old(playFragmentRemoved) || (itemCount == 0 && twoPane && hostIsMainActivity))
      ensures !Stored(old(prefs).initialDataLoaded, false) && stationCount == 0 ==>
                prefs == old(prefs) && emptyViewVisible
                && listVisible == old(listVisible) && refreshButtonVisible == old(refreshButtonVisible)
                && playFragmentRemoved == old(playFragmentRemoved)
                && initialDialogShown == (old(initialDialogShown) || online)
                && toasts == old(toasts) + [if online then Online else NotOnline]
      ensures !Stored(old(prefs).initialDataLoaded, false) && stationCount > 0 ==>
                prefs == old(prefs).(initialDataLoaded := Some(true))
                && emptyViewVisible == old(emptyViewVisible) && listVisible == old(listVisible)
                && refreshButtonVisible == old(refreshButtonVisible) && playFragmentRemoved == old(playFragmentRemoved)
                && toasts == old(toasts) && initialDialogShown == old(initialDialogShown)
      ensures Stored(prefs.initialDataLoaded, false) <==>
                (Stored(old(prefs).initialDataLoaded, false) || stationCount > 0)
    {
      var initialDataLoaded := Stored(prefs.initialDataLoaded, false);
      if !initialDataLoaded {
        if stationCount == 0 {
          emptyViewVisible := true;
          if online {
            toasts := toasts + [Online];
            initialDialogShown := true;
          } else {
            toasts := toasts + [NotOnline];
          }
        } else {
          prefs := prefs.(initialDataLoaded := Some(true));
        }
      } else {
        ToggleActionCall(itemCount, hostIsMainActivity);
      }
    }
  }
}
