/**
 * The media library screen (app/mockups/MediaLibraryScreen.tsx): the type and
 * search filter, the list of categories, and the selected media and
 * playback state shared with the player.
 */
module MediaLibrary {
  import opened Options
  import opened Seqs
  import opened Text

  datatype MediaKind = Audio | Video | Pdf | Song

  /** `activeFilter`: `'all'` or one kind of media. */
  datatype MediaFilter = AllMedia | OnlyKind(kind: MediaKind)

  datatype MediaItem = MediaItem(
    id: string,
    title: string,
    speaker: Option<string>,
    thumbnail: Option<string>,
    duration: Option<string>,
    kind: MediaKind,
    date: string,
    category: Option<string>)

  predicate MatchesType(item: MediaItem, filter: MediaFilter)
  {
    filter.AllMedia? || item.kind == filter.kind
  }

  /** The search test: empty query, or the title or a (non-empty) speaker contains it, case-insensitively. */
  predicate MatchesSearch(item: MediaItem, searchQuery: string)
  {
    searchQuery == "" ||
    Contains(Lower(item.title), Lower(searchQuery)) ||
    (Truthy(item.speaker) && Contains(Lower(item.speaker.value), Lower(searchQuery)))
  }

  function MediaFilterPredicate(filter: MediaFilter, searchQuery: string): MediaItem -> bool
  {
    (item: MediaItem) => MatchesType(item, filter) && MatchesSearch(item, searchQuery)
  }

  /** `filteredMedia`. */
  function FilteredMedia(items: seq<MediaItem>, filter: MediaFilter, searchQuery: string): seq<MediaItem>
  {
    Filter(items, MediaFilterPredicate(filter, searchQuery))
  }

  /** An item is listed iff its type passes the filter and it matches the search; the list keeps the library's order. */
  lemma FilteredMediaExact(items: seq<MediaItem>, filter: MediaFilter, searchQuery: string)
    ensures IsSubsequence(FilteredMedia(items, filter, searchQuery), items)
    ensures forall item :: item in FilteredMedia(items, filter, searchQuery) <==>
      item in items && MatchesType(item, filter) && MatchesSearch(item, searchQuery)
    ensures filter == AllMedia && searchQuery == "" ==> FilteredMedia(items, filter, searchQuery) == items
    ensures forall item ::
      multiset(FilteredMedia(items, filter, searchQuery))[item] == (if MatchesType(item, filter) && MatchesSearch(item, searchQuery) then multiset(items)[item] else 0)
  {
    FilterMultiplicity(items, MediaFilterPredicate(filter, searchQuery));
    FilterIsSubsequence(items, MediaFilterPredicate(filter, searchQuery));
    FilterMembers(items, MediaFilterPredicate(filter, searchQuery));
    FilterKeepsAll(items, MediaFilterPredicate(filter, searchQuery));
  }

  /** An item without a speaker matches a non-empty query only through its title. */
  lemma NoSpeakerMatchesByTitle(item: MediaItem, searchQuery: string)
    requires item.speaker.None? && searchQuery != ""
    ensures MatchesSearch(item, searchQuery) <==> Contains(Lower(item.title), Lower(searchQuery))
  {
  }

  /** `mediaItems.map(item => item.category).filter(Boolean)`: the categories that are set and non-empty. */
  function PresentCategories(items: seq<MediaItem>): (r: seq<string>)
    ensures forall c :: c in r <==> exists i :: 0 <= i < |items| && items[i].category == Some(c) && c != ""
    decreases |items|
  {
    if items == [] then []
    else
      var rest := PresentCategories(items[1..]);
      assert forall i :: 1 <= i < |items| ==> items[i] == items[1..][i - 1];
      if Truthy(items[0].category) then [items[0].category.value] + rest else rest
  }

  /**
   * `categories`: `Array.from(new Set(...))` of the present categories. Each
   * distinct non-empty category appears exactly once, in order of first
   * occurrence.
   */
  function Categories(items: seq<MediaItem>): (cs: seq<string>)
    ensures forall c :: c in cs <==> c in PresentCategories(items)
    ensures forall c :: c in cs <==> exists i :: 0 <= i < |items| && items[i].category == Some(c) && c != ""
    ensures NoDuplicates(cs)
    ensures forall i, j :: 0 <= i < j < |cs| ==>
      IndexOf(PresentCategories(items), cs[i]) < IndexOf(PresentCategories(items), cs[j])
  {
    Distinct(PresentCategories(items))
  }

  /** The screen's selected media and playback state. */
  class MediaLibraryState {
    var activeFilter: MediaFilter
    var searchQuery: string
    var selectedMedia: Option<MediaItem>
    var isPlaying: bool
    var currentProgress: real

    constructor ()
      ensures activeFilter == AllMedia && searchQuery == "" && selectedMedia == None
      ensures !isPlaying && currentProgress == 0.0
    {
      activeFilter := AllMedia;
      searchQuery := "";
      selectedMedia := None;
      isPlaying := false;
      currentProgress := 0.0;
    }

    /** `handleMediaPress`: opens the player on that media, playing from the start. */
    method HandleMediaPress(media: MediaItem)
      modifies this
      ensures selectedMedia == Some(media) && isPlaying && currentProgress == 0.0
      ensures activeFilter == old(activeFilter) && searchQuery == old(searchQuery)
    {
      selectedMedia := Some(media);
      isPlaying := true;
      currentProgress := 0.0;
    }

    /** `handleClosePlayer`: no media selected and playback stopped; the progress is kept. */
    method HandleClosePlayer()
      modifies this
      ensures selectedMedia == None && !isPlaying
      ensures currentProgress == old(currentProgress)
      ensures activeFilter == old(activeFilter) && searchQuery == old(searchQuery)
    {
      selectedMedia := None;
      isPlaying := false;
    }

    /** `handlePlayPause`: negates `isPlaying`. */
    method HandlePlayPause()
      modifies this
      ensures isPlaying == !old(isPlaying)
      ensures selectedMedia == old(selectedMedia) && currentProgress == old(currentProgress)
      ensures activeFilter == old(activeFilter) && searchQuery == old(searchQuery)
    {
      isPlaying := !isPlaying;
    }

    /** The player's `onPlay` (`playing` true) and `onPause` (`playing` false) callbacks. */
    method SetPlaying(playing: bool)
      modifies this
      ensures isPlaying == playing
      ensures selectedMedia == old(selectedMedia) && currentProgress == old(currentProgress)
      ensures activeFilter == old(activeFilter) && searchQuery == old(searchQuery)
    {
      isPlaying := playing;
    }

    /** `handleSeek`: sets the progress and nothing else. */
    method HandleSeek(position: real)
      modifies this
      ensures currentProgress == position
      ensures selectedMedia == old(selectedMedia) && isPlaying == old(isPlaying)
      ensures activeFilter == old(activeFilter) && searchQuery == old(searchQuery)
    {
      currentProgress := position;
    }
  }
}
