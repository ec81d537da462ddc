/**
 * The media player component. Its props `progress` and `isPlaying` belong to
 * the parent; its own state is the seek gesture: whether the handle is held
 * (`isSeeking`) and where it is (`seekPosition`). The handlers do not play or
 * seek themselves: they return the parent callback they call.
 */
module MediaPlayer {

  /** The parent callback a handler calls. */
  datatype PlayerCallback = OnPlay | OnPause | OnSeek(position: real)

  class MediaPlayerState {
    // props
    var progress: real
    var isPlaying: bool
    // component state
    var isSeeking: bool
    var seekPosition: real

    /** Mounting: not seeking, and the seek position starts at the current progress. */
    constructor (progress0: real, isPlaying0: bool)
      ensures progress == progress0 && isPlaying == isPlaying0
      ensures !isSeeking && seekPosition == progress0
    {
      progress := progress0;
      isPlaying := isPlaying0;
      isSeeking := false;
      seekPosition := progress0;
    }

    /** The parent re-renders the player with new props; the component state is kept. */
    method UpdateProps(newProgress: real, newIsPlaying: bool)
      modifies this
      ensures progress == newProgress && isPlaying == newIsPlaying
      ensures isSeeking == old(isSeeking) && seekPosition == old(seekPosition)
    {
      progress := newProgress;
      isPlaying := newIsPlaying;
    }

    /** Where the progress bar ends and the handle sits, as a fraction of the track. */
    function DisplayedPosition(): (pos: real)
      reads this
      ensures isSeeking ==> pos == seekPosition
      ensures !isSeeking ==> pos == progress
    {
      if isSeeking then seekPosition else progress
    }

    /** `handlePlayPause`: exactly one callback, pause when playing and play otherwise; no state changes. */
    method HandlePlayPause() returns (cb: PlayerCallback)
      ensures !cb.OnSeek?
      ensures cb.OnPause? <==> isPlaying
      ensures cb.OnPlay? <==> !isPlaying
    {
      if isPlaying {
        cb := OnPause;
      } else {
        cb := OnPlay;
      }
    }

    /** `handleSeekStart`: the handle is held at the current progress, so the display does not jump. */
    method HandleSeekStart()
      modifies this
      ensures isSeeking && seekPosition == progress
      ensures progress == old(progress) && isPlaying == old(isPlaying)
      ensures DisplayedPosition() == old(progress)
    {
      isSeeking := true;
      seekPosition := progress;
    }

    /** `handleSeekMove(p)`: only the seek position changes; while seeking the display follows it. */
    method HandleSeekMove(position: real)
      modifies this
      ensures seekPosition == position
      ensures isSeeking == old(isSeeking) && progress == old(progress) && isPlaying == old(isPlaying)
      ensures isSeeking ==> DisplayedPosition() == position
    {
      seekPosition := position;
    }

    /** `handleSeekEnd`: the handle is released and the parent is asked to seek to where it was held. */
    method HandleSeekEnd() returns (cb: PlayerCallback)
      modifies this
      ensures cb == OnSeek(old(seekPosition))
      ensures !isSeeking && seekPosition == old(seekPosition)
      ensures progress == old(progress) && isPlaying == old(isPlaying)
      ensures DisplayedPosition() == progress
    {
      isSeeking := false;
      cb := OnSeek(seekPosition);
    }

    /**
     * A tap on the handle, which is wired to `handleSeekStart` when pressed
     * and `handleSeekEnd` when released (no move handler is attached): it
     * asks the parent to seek to the progress it already has, and leaves the
     * player not seeking.
     */
    method TapHandle() returns (cb: PlayerCallback)
      modifies this
      ensures cb == OnSeek(old(progress))
      ensures !isSeeking && seekPosition == old(progress)
      ensures progress == old(progress) && isPlaying == old(isPlaying)
    {
      HandleSeekStart();
      cb := HandleSeekEnd();
    }
  }
}
