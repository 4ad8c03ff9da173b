/**
 * The player screen's reactions: the play buttons follow the station's playback state, playback
 * broadcasts are matched to the shown station by stream address, collection broadcasts rename the
 * shown station or refresh its image, and a second play button appears at the bottom once the
 * toolbar has collapsed completely.
 *
 * The shown station is a private copy the screen received with its intent, so it is a value here.
 * The button images, titles and image view are fields that record what the screen shows.
 */
module Player {
  import opened Options
  import opened JavaInt

  /** Collection-change codes. */
  const StationRenamed := 2
  const StationDeleted := 3
  const StationChangedImage := 4

  /** Playback-change codes. */
  const PlaybackLoadingStation := 1
  const PlaybackStarted := 2
  const PlaybackStopped := 3

  /** The part of a station the player screen reads. */
  datatype Station = Station(id: int, title: string, subtitle: string, streamUri: string, playbackState: bool)

  /**
   * Whether the toolbar counts as collapsed: `Math.abs(offset) - range == 0` in `int` arithmetic.
   * For a non-negative scroll range this is exactly "the offset is the range, up or down"; the
   * wrap-around of `Math.abs` at the smallest `int` never produces a false match.
   */
  function Collapsed(verticalOffset: int, totalScrollRange: int): (collapsed: bool)
    requires IsInt(verticalOffset) && IsInt(totalScrollRange)
    ensures totalScrollRange >= 0 ==>
              (collapsed <==> verticalOffset == totalScrollRange || verticalOffset == -totalScrollRange)
  {
    var d := Abs(verticalOffset) - totalScrollRange;
    assert verticalOffset == IntMin && totalScrollRange > 0 ==> Wrap(d) == d + 0x1_0000_0000;
    Wrap(d) == 0
  }

  /**
   * The source's collection handler dereferences the shown station in the rename and image cases
   * without checking that there is one: this is the condition under which it throws.
   */
  predicate CrashesAsWritten(code: int, shown: Option<Station>, event: Option<Station>, hasNewName: bool, hasDbId: bool): (crashes: bool)
    ensures shown.Some? ==> !crashes
    ensures crashes ==> event.Some? && (code == StationRenamed || code == StationChangedImage)
  {
    && shown.None?
    && event.Some?
    && ((code == StationRenamed && hasNewName) || (code == StationChangedImage && hasDbId))
  }

  /** A screen without a station receives a rename broadcast: the handler as written throws. */
  lemma RenameWithoutStationCrashes()
    ensures CrashesAsWritten(StationRenamed, None, Some(Station(7, "Radio", "", "http://radio.example", false)), true, false)
  {
  }

  class PlayerActivity {
    var playback: bool
    var station: Option<Station>
    var fabShowsStop: bool
    var bottomFabShowsStop: bool
    var bottomFabVisible: bool
    var shownTitle: string
    var shownSubtitle: string
    /** How often the station image was set. */
    var imageRefreshes: nat

    /**
     * With a station on screen: the playback flag is the station's playback state, both buttons
     * show "stop" exactly while it is set, and the titles are the station's.
     */
    ghost predicate Valid()
      reads this
    {
      station.Some? ==>
        && playback == station.value.playbackState
        && fabShowsStop == playback
        && bottomFabShowsStop == playback
        && shownTitle == station.value.title
        && shownSubtitle == station.value.subtitle
    }

    /**
     * `onCreate`. A "show player" intent with a station puts that station on screen (image, titles
     * and buttons); otherwise there is no station and the buttons keep their layout images.
     */
    constructor (showPlayer: bool, intentStation: Option<Station>)
      ensures Valid()
      ensures station == (if showPlayer then intentStation else None)
      ensures station.Some? ==> imageRefreshes == 1 && playback == station.value.playbackState
      ensures station.None? ==> imageRefreshes == 0 && !playback
    {
      playback := false;
      station := None;
      fabShowsStop := false;
      bottomFabShowsStop := false;
      bottomFabVisible := false;
      shownTitle := "";
      shownSubtitle := "";
      imageRefreshes := 0;
      new;
      if showPlayer && intentStation.Some? {
        station := intentStation;
        SetStationImageUi();
        SetStationTitleUi();
        UpdateUiStatus(intentStation.value);
      }
    }

    /** Shows the station's title and subtitle. */
    method SetStationTitleUi()
      requires station.Some?
      modifies this`shownTitle, this`shownSubtitle
      ensures shownTitle == station.value.title && shownSubtitle == station.value.subtitle
    {
      shownTitle := station.value.title;
      shownSubtitle := station.value.subtitle;
    }

    /** Sets the station's image again. */
    method SetStationImageUi()
      requires station.Some?
      modifies this`imageRefreshes
      ensures imageRefreshes == old(imageRefreshes) + 1
    {
      imageRefreshes := imageRefreshes + 1;
    }

    /** `UpdateUiStatus`: the playback flag becomes the station's, and both buttons show "stop" exactly when it is set. */
    method UpdateUiStatus(s: Station)
      modifies this`playback, this`fabShowsStop, this`bottomFabShowsStop
      ensures playback == s.playbackState
      ensures fabShowsStop <==> playback
      ensures bottomFabShowsStop <==> playback
    {
      playback := s.playbackState;
      if playback {
        fabShowsStop := true;
        bottomFabShowsStop := true;
      } else {
        fabShowsStop := false;
        bottomFabShowsStop := false;
      }
    }

    /**
     * The playback broadcast handler. Only an event for the shown station's stream address, with a
     * loading, started or stopped code, updates the buttons from the shown station; the flag set
     * just before is overwritten with the station's own state. On a consistent screen the handler
     * therefore changes nothing at all.
     */
    method HandlePlaybackStateChanges(code: int, event: Station)
      modifies this`playback, this`fabShowsStop, this`bottomFabShowsStop
      ensures if station.Some? && station.value.streamUri == event.streamUri
                 && (code == PlaybackLoadingStation || code == PlaybackStarted || code == PlaybackStopped) then
                playback == station.value.playbackState && fabShowsStop == playback && bottomFabShowsStop == playback
              else
                playback == old(playback) && fabShowsStop == old(fabShowsStop)
                && bottomFabShowsStop == old(bottomFabShowsStop)
      ensures old(Valid()) ==> Valid()
      ensures old(Valid()) ==>
                playback == old(playback) && fabShowsStop == old(fabShowsStop)
                && bottomFabShowsStop == old(bottomFabShowsStop)
    {
      var matches := station.Some? && station.value.streamUri == event.streamUri;
      if code == PlaybackLoadingStation {
        if matches {
          playback := true;
          UpdateUiStatus(station.value);
        }
      } else if code == PlaybackStarted {
        if matches {
          UpdateUiStatus(station.value);
        }
      } else if code == PlaybackStopped {
        if matches {
          playback := false;
          UpdateUiStatus(station.value);
        }
      }
    }

    /**
     * What a collection broadcast does to a screen that handles it: a rename of the shown station
     * (same id, new name supplied) copies the new title and subtitle and shows them; an image change
     * of the shown station (database id supplied) sets its image again; every other event, deletion
     * included, changes nothing.
     */
    twostate predicate CollectionChangeHandled(code: int, event: Option<Station>, hasNewName: bool, hasDbId: bool)
      reads this
    {
      var same := old(station).Some? && event.Some? && event.value.id == old(station).value.id;
      if code == StationRenamed && hasNewName && same then
        && station == Some(old(station).value.(title := event.value.title, subtitle := event.value.subtitle))
        && shownTitle == event.value.title && shownSubtitle == event.value.subtitle
        && imageRefreshes == old(imageRefreshes)
      else if code == StationChangedImage && hasDbId && same then
        && station == old(station) && shownTitle == old(shownTitle) && shownSubtitle == old(shownSubtitle)
        && imageRefreshes == old(imageRefreshes) + 1
      else
        && station == old(station) && shownTitle == old(shownTitle) && shownSubtitle == old(shownSubtitle)
        && imageRefreshes == old(imageRefreshes)
    }

    /** The collection broadcast handler, with the missing check for a shown station added. */
    method HandleCollectionChanges(code: int, event: Option<Station>, hasNewName: bool, hasDbId: bool)
      modifies this`station, this`shownTitle, this`shownSubtitle, this`imageRefreshes
      ensures CollectionChangeHandled(code, event, hasNewName, hasDbId)
      ensures old(Valid()) ==> Valid()
    {
      if code == StationRenamed {
        if hasNewName && event.Some? {
          if station.Some? && event.value.id == station.value.id {
            station := Some(station.value.(title := event.value.title, subtitle := event.value.subtitle));
            SetStationTitleUi();
          }
        }
      } else if code == StationDeleted {
      } else if code == StationChangedImage {
        if event.Some? && hasDbId {
          if station.Some? && event.value.id == station.value.id {
            SetStationImageUi();
          }
        }
      }
    }

    /**
     * The collection handler as the source writes it: it throws exactly when `CrashesAsWritten`
     * holds, and otherwise does what the checked handler does.
     */
    method HandleCollectionChangesAsWritten(code: int, event: Option<Station>, hasNewName: bool, hasDbId: bool)
      returns (crashed: bool)
      modifies this`station, this`shownTitle, this`shownSubtitle, this`imageRefreshes
      ensures crashed <==> CrashesAsWritten(code, old(station), event, hasNewName, hasDbId)
      ensures crashed ==> station == old(station) && imageRefreshes == old(imageRefreshes)
                          && shownTitle == old(shownTitle) && shownSubtitle == old(shownSubtitle)
      ensures !crashed ==> CollectionChangeHandled(code, event, hasNewName, hasDbId)
      ensures !crashed && old(Valid()) ==> Valid()
    {
      crashed := CrashesAsWritten(code, station, event, hasNewName, hasDbId);
      if !crashed {
        HandleCollectionChanges(code, event, hasNewName, hasDbId);
      }
    }

    /** `onOffsetChanged`: the bottom play button is visible exactly while the toolbar is collapsed. */
    method OnOffsetChanged(verticalOffset: int, totalScrollRange: int)
      requires IsInt(verticalOffset) && IsInt(totalScrollRange)
      modifies this`bottomFabVisible
      ensures bottomFabVisible == Collapsed(verticalOffset, totalScrollRange)
      ensures totalScrollRange >= 0 ==>
                (bottomFabVisible <==> verticalOffset == totalScrollRange || verticalOffset == -totalScrollRange)
    {
      if Wrap(Abs(verticalOffset) - totalScrollRange) == 0 {
        bottomFabVisible := true;
      } else {
        bottomFabVisible := false;
      }
    }
  }
}
