/**
  The playlist (`PlaylistComponent`): the music library as a sequence of
  tracks with unique library ids, its tab-separated file format, id
  allocation on load and on adding a file, removal by id, the front-to-back
  rotation that feeds autoplay, filtering by title, the track-length
  display, and the crossfade between the two decks with its automatic fade.

  File access is a parameter: a library file is its text (or none when it
  cannot be opened), a newly opened audio file is its name, URL and length.
  The float rendering and parsing of track lengths (`std::to_string`, and
  `std::stof` with none where it throws) and the regular-expression title
  match are passed in as functions.
 */
module PlaylistComponent {
  import opened Wrappers
  import opened CNumeric
  import opened Text
  import DG = DeckGUI
  import AP = DJAudioPlayer

  datatype Track = Track(libraryId: int, title: string, length: real, trackURL: string)

  /** The library and the id the next added track receives. */
  datatype Library = Library(tracks: seq<Track>, nextLibraryId: int)

  const Tab: char := '\t'
  const Newline: char := '\n'

  function Ids(tracks: seq<Track>): (ids: seq<int>)
    ensures |ids| == |tracks| && forall i :: 0 <= i < |tracks| ==> ids[i] == tracks[i].libraryId
  {
    seq(|tracks|, i requires 0 <= i < |tracks| => tracks[i].libraryId)
  }

  /** No two tracks share a library id. */
  predicate UniqueIds(tracks: seq<Track>) {
    forall i, j :: 0 <= i < j < |tracks| ==> tracks[i].libraryId != tracks[j].libraryId
  }

  /** Ids are unique and all below the next id to hand out, so the next added track gets a fresh one. */
  predicate Fresh(lib: Library) {
    UniqueIds(lib.tracks) && forall i :: 0 <= i < |lib.tracks| ==> lib.tracks[i].libraryId < lib.nextLibraryId
  }

  /* ---------------------------------------------------------------------- */
  /* The library file format                                                 */
  /* ---------------------------------------------------------------------- */

  /** One line of the library file, without its newline: id, title, length text and URL, separated by tabs. */
  function TrackLine(t: Track, lengthText: string): string {
    IntToString(t.libraryId) + [Tab] + t.title + [Tab] + lengthText + [Tab] + t.trackURL
  }

  /** `saveMusicLib`: every track's line followed by a newline, in library order. */
  function SaveMusicLib(tracks: seq<Track>, formatLength: real -> string): string {
    Terminated(Lines(tracks, formatLength), Newline)
  }

  function Lines(tracks: seq<Track>, formatLength: real -> string): (lines: seq<string>)
    ensures |lines| == |tracks|
    ensures forall i :: 0 <= i < |tracks| ==> lines[i] == TrackLine(tracks[i], formatLength(tracks[i].length))
  {
    seq(|tracks|, i requires 0 <= i < |tracks| => TrackLine(tracks[i], formatLength(tracks[i].length)))
  }

  /** Why a line cannot be read: too few fields, an id `stol` rejects, or a length `stof` rejects. */
  datatype LineError = MissingField | BadId(cause: ParseError) | BadLength

  /**
    `tokeniseMusicLibLine`: the line is split at tabs as `getline` splits it;
    then, in order, the id is read with `stol`, the title taken, the length
    read with `stof` (`parseLength`, none where `stof` throws) and the URL
    taken. Fields past the fourth are ignored.
   */
  function Tokenise(line: string, parseLength: string -> Option<real>): (r: Result<Track, LineError>)
    ensures r.Ok? ==> LongMin <= r.value.libraryId <= LongMax
    ensures r.Ok? ==> Tab !in r.value.title && Tab !in r.value.trackURL
    ensures Tab !in line ==> r.Err?
    ensures var tokens := Split(line, Tab);
      |tokens| >= 4 && ParseLong(tokens[0]).Ok? ==> (r.Ok? <==> parseLength(tokens[2]).Some?)
  {
    var tokens := Split(line, Tab);
    SplitWithoutDelimiter(line, Tab);
    if |tokens| == 0 then Err(MissingField)
    else match ParseLong(tokens[0])
      case Err(e) => Err(BadId(e))
      case Ok(id) =>
        if |tokens| < 3 then Err(MissingField)
        else match parseLength(tokens[2])
          case None => Err(BadLength)
          case Some(length) =>
            if |tokens| < 4 then Err(MissingField)
            else Ok(Track(id, tokens[1], length, tokens[3]))
  }

  /** Without the delimiter there is at most one field. */
  lemma SplitWithoutDelimiter(s: string, d: char)
    ensures d !in s ==> |Split(s, d)| <= 1
  {
    if |s| > 0 && d !in s {
      assert IndexOf(s, d) == |s|;
    }
  }

  /** A track that survives the file format: a `long` id, and title, URL and length text free of tabs and newlines, with a URL. */
  predicate Storable(t: Track, lengthText: string) {
    && LongMin <= t.libraryId <= LongMax
    && Tab !in t.title && Newline !in t.title
    && Tab !in lengthText && Newline !in lengthText
    && Tab !in t.trackURL && Newline !in t.trackURL && |t.trackURL| > 0
  }

  /** A written line splits at its tabs into exactly its four fields. */
  lemma TrackLineFields(t: Track, lengthText: string)
    requires Storable(t, lengthText)
    ensures Split(TrackLine(t, lengthText), Tab) == [IntToString(t.libraryId), t.title, lengthText, t.trackURL]
  {
    IntToStringChars(t.libraryId);
    assert Tab !in IntToString(t.libraryId);
    SplitFour(IntToString(t.libraryId), t.title, lengthText, t.trackURL, Tab);
  }

  /**
    Reading a written line gives back its id, title and URL, with the length
    its text parses to; a length text `stof` rejects fails the line.
   */
  lemma TokeniseTrackLine(t: Track, lengthText: string, parseLength: string -> Option<real>)
    requires Storable(t, lengthText)
    ensures parseLength(lengthText).Some? ==>
              Tokenise(TrackLine(t, lengthText), parseLength) == Ok(t.(length := parseLength(lengthText).value))
    ensures parseLength(lengthText).None? ==> Tokenise(TrackLine(t, lengthText), parseLength) == Err(BadLength)
  {
    TrackLineFields(t, lengthText);
    ParseLongOfIntToString(t.libraryId);
  }

  /** Line `line` reads as track `t`. */
  predicate ReadsAs(line: string, t: Track, parseLength: string -> Option<real>) {
    Tokenise(line, parseLength) == Ok(t)
  }

  /** The tracks of tokenised lines in order; the first error ends the load with that error. */
  function Collect(results: seq<Result<Track, LineError>>): (r: Result<seq<Track>, LineError>)
    ensures r.Ok? <==> forall i :: 0 <= i < |results| ==> results[i].Ok?
    ensures r.Ok? ==> |r.value| == |results|
    ensures r.Ok? ==> forall i :: 0 <= i < |results| ==> results[i] == Ok(r.value[i])
    ensures r.Err? ==> exists i :: 0 <= i < |results| && results[i] == Err(r.error) && forall k :: 0 <= k < i ==> results[k].Ok?
  {
    if |results| == 0 then Ok([])
    else match results[0]
      case Err(e) => Err(e)
      case Ok(t) =>
        var rest := Collect(results[1..]);
        assert forall i :: 1 <= i < |results| ==> results[i] == results[1..][i - 1];
        match rest
        case Err(e) =>
          var j :| 0 <= j < |results[1..]| && results[1..][j] == Err(e) && forall k :: 0 <= k < j ==> results[1..][k].Ok?;
          assert results[j + 1] == Err(e);
          Err(e)
        case Ok(tracks) =>
          var r := [t] + tracks;
          assert forall i :: 1 <= i < |results| ==> r[i] == tracks[i - 1];
          Ok(r)
  }

  /**
    Every line read in order: all lines read exactly when each tokenises,
    and otherwise the load ends with the first unreadable line's error.
   */
  function ParseLines(lines: seq<string>, parseLength: string -> Option<real>): (r: Result<seq<Track>, LineError>)
    ensures r.Ok? <==> forall i :: 0 <= i < |lines| ==> Tokenise(lines[i], parseLength).Ok?
    ensures r.Ok? ==> |r.value| == |lines|
    ensures r.Ok? ==> forall i :: 0 <= i < |lines| ==> ReadsAs(lines[i], r.value[i], parseLength)
    ensures r.Err? ==> exists i :: 0 <= i < |lines| && Tokenise(lines[i], parseLength) == Err(r.error)
  {
    var results := TokeniseAll(lines, parseLength);
    var r := Collect(results);
    if r.Err? then
      var j :| 0 <= j < |results| && results[j] == Err(r.error) && forall k :: 0 <= k < j ==> results[k].Ok?;
      assert Tokenise(lines[j], parseLength) == Err(r.error);
      r
    else r
  }

  /** Each line tokenised. */
  function TokeniseAll(lines: seq<string>, parseLength: string -> Option<real>): (results: seq<Result<Track, LineError>>)
    ensures |results| == |lines|
    ensures forall i :: 0 <= i < |lines| ==> results[i] == Tokenise(lines[i], parseLength)
  {
    seq(|lines|, i requires 0 <= i < |lines| => Tokenise(lines[i], parseLength))
  }

  /* ---------------------------------------------------------------------- */
  /* Id allocation                                                           */
  /* ---------------------------------------------------------------------- */

  /** Which version of a routine with a known defect: as the source writes it, or corrected. */
  datatype Variant = AsWritten | Corrected

  /**
    The next id after reading a track with id `id`: one past it when it is
    above the next id (as written) or at or above it (corrected).
   */
  function NextId(next: int, id: int, variant: Variant): int {
    if (variant == AsWritten && id > next) || (variant == Corrected && id >= next) then id + 1 else next
  }

  /** The next id after reading the ids in order. */
  function NextAfter(ids: seq<int>, next: int, variant: Variant): (r: int)
    ensures r >= next
    ensures r == next || r - 1 in ids
    ensures variant == Corrected ==> forall k :: 0 <= k < |ids| ==> ids[k] < r
  {
    if |ids| == 0 then next
    else
      var r := NextAfter(ids[1..], NextId(next, ids[0], variant), variant);
      assert forall k :: 1 <= k < |ids| ==> ids[k] == ids[1..][k - 1];
      assert r - 1 in ids[1..] ==> r - 1 in ids;
      r
  }

  /**
    `loadMusicLib`: the file's lines are read into tracks appended to the
    library, and the next id is advanced past the ids read as the variant
    says. A file that cannot be opened changes nothing; a line that cannot
    be read ends the load with its error.
   */
  function LoadMusicLib(lib: Library, file: Option<string>, parseLength: string -> Option<real>, variant: Variant): (r: Result<Library, LineError>)
    ensures file.None? ==> r == Ok(lib)
    ensures file.Some? ==> (r.Ok? <==> ParseLines(Split(file.value, Newline), parseLength).Ok?)
    ensures file.Some? && r.Err? ==> r.error == ParseLines(Split(file.value, Newline), parseLength).error
    ensures file.Some? && r.Ok? ==>
      var read := ParseLines(Split(file.value, Newline), parseLength).value;
      r.value.tracks == lib.tracks + read && r.value.nextLibraryId == NextAfter(Ids(read), lib.nextLibraryId, variant)
    ensures r.Ok? ==> |r.value.tracks| >= |lib.tracks| && r.value.tracks[..|lib.tracks|] == lib.tracks
    ensures r.Ok? ==> r.value.nextLibraryId >= lib.nextLibraryId
    ensures r.Ok? && variant == Corrected && Fresh(lib) && UniqueIds(r.value.tracks) ==> Fresh(r.value)
  {
    match file
    case None => Ok(lib)
    case Some(text) =>
      match ParseLines(Split(text, Newline), parseLength)
      case Err(e) => Err(e)
      case Ok(read) =>
        AppendRead(lib, read, variant);
        Ok(Library(lib.tracks + read, NextAfter(Ids(read), lib.nextLibraryId, variant)))
  }

  /** Tracks read from a file are appended after the library's own, and the corrected next id passes all of them. */
  lemma AppendRead(lib: Library, read: seq<Track>, variant: Variant)
    ensures var r := Library(lib.tracks + read, NextAfter(Ids(read), lib.nextLibraryId, variant));
      && |r.tracks| >= |lib.tracks| && r.tracks[..|lib.tracks|] == lib.tracks
      && r.nextLibraryId >= lib.nextLibraryId
      && (variant == Corrected && Fresh(lib) && UniqueIds(r.tracks) ==> Fresh(r))
  {
    var r := Library(lib.tracks + read, NextAfter(Ids(read), lib.nextLibraryId, variant));
    assert r.tracks[..|lib.tracks|] == lib.tracks;
    forall i | |lib.tracks| <= i < |r.tracks| ensures r.tracks[i].libraryId == Ids(read)[i - |lib.tracks|] {
      assert r.tracks[i] == read[i - |lib.tracks|];
    }
  }

  /** The length text of every track is one `stof` accepts. */
  predicate LengthsReadable(tracks: seq<Track>, formatLength: real -> string, parseLength: string -> Option<real>) {
    forall i :: 0 <= i < |tracks| ==> parseLength(formatLength(tracks[i].length)).Some?
  }

  /** The length each track has after a save and a load: its length rendered and parsed back. */
  function Reread(tracks: seq<Track>, formatLength: real -> string, parseLength: string -> Option<real>): (r: seq<Track>)
    requires LengthsReadable(tracks, formatLength, parseLength)
    ensures |r| == |tracks|
    ensures forall i :: 0 <= i < |tracks| ==> r[i] == tracks[i].(length := parseLength(formatLength(tracks[i].length)).value)
  {
    seq(|tracks|, i requires 0 <= i < |tracks| => tracks[i].(length := parseLength(formatLength(tracks[i].length)).value))
  }

  /** Saving a library of storable tracks and loading the file into an empty library gives the same tracks back, lengths aside. */
  lemma SaveLoadRoundTrip(tracks: seq<Track>, formatLength: real -> string, parseLength: string -> Option<real>, variant: Variant)
    requires forall i :: 0 <= i < |tracks| ==> Storable(tracks[i], formatLength(tracks[i].length))
    requires LengthsReadable(tracks, formatLength, parseLength)
    ensures LoadMusicLib(Library([], 0), Some(SaveMusicLib(tracks, formatLength)), parseLength, variant).Ok?
    ensures LoadMusicLib(Library([], 0), Some(SaveMusicLib(tracks, formatLength)), parseLength, variant).value.tracks
            == Reread(tracks, formatLength, parseLength)
  {
    SplitSaved(tracks, formatLength);
    ParseWritten(tracks, formatLength, parseLength);
    var read := Reread(tracks, formatLength, parseLength);
    assert ParseLines(Split(SaveMusicLib(tracks, formatLength), Newline), parseLength) == Ok(read);
    assert [] + read == read;
  }

  /** A saved library with a length `stof` rejects does not load: the load fails with that line's error. */
  lemma SaveLoadRejectsLength(tracks: seq<Track>, formatLength: real -> string, parseLength: string -> Option<real>, variant: Variant, k: nat)
    requires forall i :: 0 <= i < |tracks| ==> Storable(tracks[i], formatLength(tracks[i].length))
    requires k < |tracks| && parseLength(formatLength(tracks[k].length)).None?
    ensures LoadMusicLib(Library([], 0), Some(SaveMusicLib(tracks, formatLength)), parseLength, variant).Err?
  {
    SplitSaved(tracks, formatLength);
    var lines := Lines(tracks, formatLength);
    TokeniseTrackLine(tracks[k], formatLength(tracks[k].length), parseLength);
    assert Tokenise(lines[k], parseLength).Err?;
    assert ParseLines(lines, parseLength).Err?;
  }

  /** The saved text splits at its newlines into the written lines. */
  lemma SplitSaved(tracks: seq<Track>, formatLength: real -> string)
    requires forall i :: 0 <= i < |tracks| ==> Storable(tracks[i], formatLength(tracks[i].length))
    ensures Split(SaveMusicLib(tracks, formatLength), Newline) == Lines(tracks, formatLength)
  {
    var lines := Lines(tracks, formatLength);
    forall k | 0 <= k < |lines| ensures Newline !in lines[k] {
      var t := tracks[k];
      IntToStringChars(t.libraryId);
      assert Newline !in IntToString(t.libraryId);
      assert lines[k] == IntToString(t.libraryId) + [Tab] + t.title + [Tab] + formatLength(t.length) + [Tab] + t.trackURL;
    }
    SplitTerminated(lines, Newline);
  }

  /** The written lines of storable tracks read back as those tracks, lengths rendered and parsed. */
  lemma ParseWritten(tracks: seq<Track>, formatLength: real -> string, parseLength: string -> Option<real>)
    requires forall i :: 0 <= i < |tracks| ==> Storable(tracks[i], formatLength(tracks[i].length))
    requires LengthsReadable(tracks, formatLength, parseLength)
    ensures ParseLines(Lines(tracks, formatLength), parseLength) == Ok(Reread(tracks, formatLength, parseLength))
  {
    var lines := Lines(tracks, formatLength);
    var read := Reread(tracks, formatLength, parseLength);
    forall k | 0 <= k < |lines| ensures ReadsAs(lines[k], read[k], parseLength) {
      TokeniseTrackLine(tracks[k], formatLength(tracks[k].length), parseLength);
    }
    var r := ParseLines(lines, parseLength);
    assert r.Ok?;
    assert r.value == read;
  }

  /* ---------------------------------------------------------------------- */
  /* Adding, removing and emptying                                           */
  /* ---------------------------------------------------------------------- */

  /** An audio file that opened: its file name, its URL, and its length in seconds as the reader reports it. */
  datatype Reader = Reader(fileName: string, url: string, lengthInSeconds: real)

  /**
    `loadFileToMusicLib`: a file that opens is appended as a track with the
    next id, which then advances by one; a file that does not open changes
    nothing.
   */
  function LoadFileToMusicLib(lib: Library, reader: Option<Reader>): (r: Library)
    ensures reader.None? ==> r == lib
    ensures reader.Some? ==>
      && r.tracks == lib.tracks + [Track(lib.nextLibraryId, reader.value.fileName, reader.value.lengthInSeconds, reader.value.url)]
      && r.nextLibraryId == lib.nextLibraryId + 1
    ensures Fresh(lib) ==> Fresh(r)
  {
    match reader
    case None => lib
    case Some(f) =>
      Library(lib.tracks + [Track(lib.nextLibraryId, f.fileName, f.lengthInSeconds, f.url)], lib.nextLibraryId + 1)
  }

  /** Adding a file while some track already holds the next id gives two tracks the same id. */
  lemma AddWithTakenId(lib: Library, r: Reader, k: nat)
    requires k < |lib.tracks| && lib.tracks[k].libraryId == lib.nextLibraryId
    ensures !UniqueIds(LoadFileToMusicLib(lib, Some(r)).tracks)
  {
    var added := LoadFileToMusicLib(lib, Some(r)).tracks;
    assert added[k] == lib.tracks[k];
    assert added[|lib.tracks|].libraryId == lib.nextLibraryId;
  }

  /** Reading the ids 0, 1 and 2 from next id 0: as written the next id stops at 2, corrected it is 3. */
  lemma NextAfterZeroOneTwo()
    ensures NextAfter([0, 1, 2], 0, AsWritten) == 2
    ensures NextAfter([0, 1, 2], 0, Corrected) == 3
  {
    assert [0, 1, 2][1..] == [1, 2] && [1, 2][1..] == [2] && [2][1..] == [];
  }

  /** A library file's worth of tracks with the ids 0, 1 and 2. */
  const ZeroOneTwo: seq<Track> := [Track(0, "a", 1.0, "a"), Track(1, "b", 1.0, "b"), Track(2, "c", 1.0, "c")]

  /**
    With the ids 0, 1 and 2 on file, the load as written stops the next id
    at 2 (id 0 does not exceed 0, id 2 does not exceed 2), so the next file
    added is given id 2 a second time. With the corrected comparison the
    next id is 3 and the added track's id is fresh.
   */
  lemma DuplicateIdAsWritten(r: Reader)
    ensures !UniqueIds(LoadFileToMusicLib(Library(ZeroOneTwo, NextAfter(Ids(ZeroOneTwo), 0, AsWritten)), Some(r)).tracks)
    ensures Fresh(LoadFileToMusicLib(Library(ZeroOneTwo, NextAfter(Ids(ZeroOneTwo), 0, Corrected)), Some(r)))
  {
    assert Ids(ZeroOneTwo) == [0, 1, 2];
    NextAfterZeroOneTwo();
    assert ZeroOneTwo[2].libraryId == 2;
    AddWithTakenId(Library(ZeroOneTwo, 2), r, 2);
    assert Fresh(Library(ZeroOneTwo, 3));
  }

  /** Index of the first track with the given id, or the length when there is none. */
  function FirstWithId(tracks: seq<Track>, id: int): (k: nat)
    ensures k <= |tracks|
    ensures k < |tracks| ==> tracks[k].libraryId == id
    ensures forall j :: 0 <= j < k ==> tracks[j].libraryId != id
  {
    if |tracks| == 0 || tracks[0].libraryId == id then 0 else 1 + FirstWithId(tracks[1..], id)
  }

  /** The tracks with the one at index `k` taken out; the others keep their order. */
  function RemoveAt<T>(s: seq<T>, k: nat): (r: seq<T>)
    requires k < |s|
    ensures |r| == |s| - 1
    ensures forall j :: 0 <= j < |r| ==> r[j] == s[if j < k then j else j + 1]
    ensures multiset(r) + multiset{s[k]} == multiset(s)
  {
    assert s == s[..k] + [s[k]] + s[k + 1..];
    s[..k] + s[k + 1..]
  }

  /**
    `removeFromLibrary`: a linear search removes the first track with the
    id and keeps the others in order; an absent id changes nothing.
   */
  method RemoveFromLibrary(tracks: seq<Track>, id: int) returns (r: seq<Track>)
    ensures (forall j :: 0 <= j < |tracks| ==> tracks[j].libraryId != id) ==> r == tracks
    ensures var k := FirstWithId(tracks, id);
      k < |tracks| ==> r == RemoveAt(tracks, k)
  {
    var i := 0;
    while i < |tracks|
      invariant 0 <= i <= |tracks|
      invariant forall j :: 0 <= j < i ==> tracks[j].libraryId != id
    {
      if tracks[i].libraryId == id {
        assert FirstWithId(tracks, id) == i;
        return tracks[..i] + tracks[i + 1..];
      }
      i := i + 1;
    }
    return tracks;
  }

  /** Taking any one track out of a fresh library leaves it fresh. */
  lemma RemovalKeepsFresh(lib: Library, k: nat)
    requires Fresh(lib) && k < |lib.tracks|
    ensures Fresh(Library(RemoveAt(lib.tracks, k), lib.nextLibraryId))
  {
    var r := RemoveAt(lib.tracks, k);
    forall i, j | 0 <= i < j < |r| ensures r[i].libraryId != r[j].libraryId {
      assert r[i] == lib.tracks[if i < k then i else i + 1];
    }
  }

  /**
    Removal from a fresh library takes out exactly one track, the one with
    the id: no track with that id is left, and the library stays fresh.
   */
  lemma RemovalRemovesOne(lib: Library, id: int, k: nat)
    requires Fresh(lib)
    requires k == FirstWithId(lib.tracks, id) && k < |lib.tracks|
    ensures lib.tracks[k].libraryId == id
    ensures forall t :: t in RemoveAt(lib.tracks, k) ==> t.libraryId != id
    ensures Fresh(Library(RemoveAt(lib.tracks, k), lib.nextLibraryId))
  {
    var r := RemoveAt(lib.tracks, k);
    RemovalKeepsFresh(lib, k);
    forall t | t in r ensures t.libraryId != id {
      var j :| 0 <= j < |r| && r[j] == t;
      assert r[j] == lib.tracks[if j < k then j else j + 1];
    }
  }

  /** `emptyPlaylist`: no tracks; the next id is kept. */
  function EmptyPlaylist(lib: Library): (r: Library)
    ensures r.tracks == [] && r.nextLibraryId == lib.nextLibraryId
    ensures Fresh(r)
  {
    lib.(tracks := [])
  }

  /* ---------------------------------------------------------------------- */
  /* Rotation for autoplay                                                   */
  /* ---------------------------------------------------------------------- */

  /** The front track moves to the back; the others move up one place. */
  function RotateToBack(tracks: seq<Track>): (r: seq<Track>)
    requires |tracks| > 0
    ensures |r| == |tracks| && multiset(r) == multiset(tracks)
    ensures r[|r| - 1] == tracks[0] && r[..|r| - 1] == tracks[1..]
    ensures r == tracks[1..] + [tracks[0]]
  {
    var r := tracks[1..] + [tracks[0]];
    assert tracks == [tracks[0]] + tracks[1..];
    assert r[..|r| - 1] == tracks[1..];
    r
  }

  /** Rotating `n` times. */
  function RotateTimes(tracks: seq<Track>, n: nat): seq<Track>
    decreases n
  {
    if n == 0 || |tracks| == 0 then tracks else RotateTimes(RotateToBack(tracks), n - 1)
  }

  /** Moving the front element to the back, then the first `n - 1` of the result, moves the first `n`. */
  lemma RotateSlices<T>(s: seq<T>, n: nat)
    requires 0 < n <= |s|
    ensures var r := s[1..] + [s[0]]; r[n - 1..] + r[..n - 1] == s[n..] + s[..n]
  {
    var r := s[1..] + [s[0]];
    assert r[n - 1..] == s[n..] + [s[0]];
    assert r[..n - 1] == s[1..n];
    assert s[..n] == [s[0]] + s[1..n];
  }

  /** `n` rotations of at most the library's length move its first `n` tracks to the back, in order. */
  lemma {:induction false} RotateTimesSplits(tracks: seq<Track>, n: nat)
    requires n <= |tracks|
    ensures RotateTimes(tracks, n) == tracks[n..] + tracks[..n]
    decreases n
  {
    if n == 0 {
      assert tracks[0..] + tracks[..0] == tracks;
    } else {
      var r := RotateToBack(tracks);
      assert RotateTimes(tracks, n) == RotateTimes(r, n - 1);
      RotateTimesSplits(r, n - 1);
      RotateSlices(tracks, n);
    }
  }

  /** Rotating once per track brings the library back to its original order. */
  lemma RotateFullCycle(tracks: seq<Track>)
    ensures RotateTimes(tracks, |tracks|) == tracks
  {
    RotateTimesSplits(tracks, |tracks|);
    assert tracks[|tracks|..] + tracks[..|tracks|] == tracks;
  }

  /** Rotation keeps the library fresh. */
  lemma RotatePreservesFresh(lib: Library)
    requires Fresh(lib) && |lib.tracks| > 0
    ensures Fresh(lib.(tracks := RotateToBack(lib.tracks)))
  {
    var s := lib.tracks;
    var r := RotateToBack(s);
    forall i | 0 <= i < |r| ensures r[i] == s[Origin(i, |s|)] {
      if i < |r| - 1 { assert r[i] == r[..|r| - 1][i]; }
    }
    forall i, j | 0 <= i < j < |r| ensures r[i].libraryId != r[j].libraryId {
      assert r[i] == s[Origin(i, |s|)] && r[j] == s[Origin(j, |s|)];
    }
  }

  /** Where the track at index `i` of a rotated library of `n` tracks came from. */
  function Origin(i: nat, n: nat): (k: nat)
    requires i < n
    ensures k < n
  {
    if i + 1 < n then i + 1 else 0
  }

  /* ---------------------------------------------------------------------- */
  /* Filtering by title                                                      */
  /* ---------------------------------------------------------------------- */

  /** `a` is `b` with some elements left out, the rest in their order. */
  predicate SubsequenceOf<T(==)>(a: seq<T>, b: seq<T>)
    decreases |b|
  {
    if |a| == 0 then true
    else if |b| == 0 then false
    else (a[0] == b[0] && SubsequenceOf(a[1..], b[1..])) || SubsequenceOf(a, b[1..])
  }

  lemma {:induction false} SubsequenceOfSelf<T>(s: seq<T>)
    ensures SubsequenceOf(s, s)
    decreases |s|
  {
    if |s| > 0 {
      SubsequenceOfSelf(s[1..]);
    }
  }

  /** The tracks whose title the search term matches, in library order. */
  function Matching(tracks: seq<Track>, term: string, matches: (string, string) -> bool): (shown: seq<Track>)
    ensures SubsequenceOf(shown, tracks)
    ensures forall t :: t in shown ==> t in tracks && matches(t.title, term)
    ensures forall i :: 0 <= i < |tracks| && matches(tracks[i].title, term) ==> tracks[i] in shown
  {
    if |tracks| == 0 then []
    else
      var rest := Matching(tracks[1..], term, matches);
      assert forall i :: 1 <= i < |tracks| ==> tracks[i] == tracks[1..][i - 1];
      if matches(tracks[0].title, term) then
        assert ([tracks[0]] + rest)[1..] == rest;
        [tracks[0]] + rest
      else
        rest
  }

  /**
    `filterTracksToDisplayByTitle` (and the search box's change handler): an
    empty search term shows the whole library; any other term shows the
    tracks whose title it matches, in library order. The case-insensitive
    regular-expression search is the parameter `matches`.
   */
  function FilterByTitle(tracks: seq<Track>, term: string, matches: (string, string) -> bool): (shown: seq<Track>)
    ensures term == "" ==> shown == tracks
    ensures SubsequenceOf(shown, tracks)
    ensures forall t :: t in shown ==> t in tracks && (term == "" || matches(t.title, term))
    ensures forall i :: 0 <= i < |tracks| && (term == "" || matches(tracks[i].title, term)) ==> tracks[i] in shown
  {
    if term == "" then SubsequenceOfSelf(tracks); tracks else Matching(tracks, term, matches)
  }

  /** Filtering a concatenation filters each part on its own: the display keeps library order. */
  lemma {:induction false} MatchingAppend(a: seq<Track>, b: seq<Track>, term: string, matches: (string, string) -> bool)
    ensures Matching(a + b, term, matches) == Matching(a, term, matches) + Matching(b, term, matches)
    decreases |a|
  {
    if |a| == 0 {
      assert a + b == b;
    } else {
      assert (a + b)[1..] == a[1..] + b;
      MatchingAppend(a[1..], b, term, matches);
    }
  }

  lemma {:induction false} MatchingIdempotent(tracks: seq<Track>, term: string, matches: (string, string) -> bool)
    ensures Matching(Matching(tracks, term, matches), term, matches) == Matching(tracks, term, matches)
    decreases |tracks|
  {
    if |tracks| > 0 {
      MatchingIdempotent(tracks[1..], term, matches);
      var rest := Matching(tracks[1..], term, matches);
      if matches(tracks[0].title, term) {
        assert ([tracks[0]] + rest)[1..] == rest;
      }
    }
  }

  /** Searching again with the same term among the tracks shown shows the same tracks. */
  lemma FilterIdempotent(tracks: seq<Track>, term: string, matches: (string, string) -> bool)
    ensures FilterByTitle(FilterByTitle(tracks, term, matches), term, matches) == FilterByTitle(tracks, term, matches)
  {
    if term != "" {
      MatchingIdempotent(tracks, term, matches);
    }
  }

  /* ---------------------------------------------------------------------- */
  /* Track lengths                                                           */
  /* ---------------------------------------------------------------------- */

  /**
    `lengthToMinutesAndSeconds`: the length truncated to whole seconds, as
    the whole minutes and a prime when there is at least one minute, then
    the seconds with a leading zero below ten and a double prime.
   */
  function LengthToMinutesAndSeconds(length: real): (text: string)
    ensures length >= 0.0 ==>
      var (minutes, seconds) := MinutesAndSeconds(length);
      text == (if minutes >= 1 then IntToString(minutes) + "'" else "") + TwoDigits(seconds) + "\""
  {
    var (minutes, seconds) := MinutesAndSeconds(length);
    var secStr := if seconds < 10 then "0" + IntToString(seconds) + "\"" else IntToString(seconds) + "\"";
    var minStr := if minutes < 1 then "" else IntToString(minutes) + "'";
    if 0 <= seconds < 60 then TwoDigitsIsPadded(seconds); minStr + secStr else minStr + secStr
  }

  /**
    The display of a non-negative length reads back as its whole seconds:
    the digits before the prime, when shown, are the minutes, and the two
    digits before the double prime the seconds.
   */
  lemma LengthReadBack(length: real)
    requires length >= 0.0
    ensures var text := LengthToMinutesAndSeconds(length);
      && |text| >= 3 && text[|text| - 1] == '"' && AllDigits(text[|text| - 3..|text| - 1])
      && (|text| == 3 ==> DigitsValue(text[|text| - 3..|text| - 1]) == Trunc(length))
      && (|text| > 3 ==>
            && text[|text| - 4] == '\'' && AllDigits(text[..|text| - 4])
            && 60 * DigitsValue(text[..|text| - 4]) + DigitsValue(text[|text| - 3..|text| - 1]) == Trunc(length))
  {
    var (minutes, seconds) := MinutesAndSeconds(length);
    var text := LengthToMinutesAndSeconds(length);
    var sec := TwoDigits(seconds);
    if minutes >= 1 {
      var m := IntToString(minutes);
      assert text == m + "'" + sec + "\"";
      assert text[..|text| - 4] == m;
      assert text[|text| - 3..|text| - 1] == sec;
      DigitsValueOfNatToString(minutes);
    } else {
      assert text == sec + "\"";
      assert text[|text| - 3..|text| - 1] == sec;
    }
  }

  /* ---------------------------------------------------------------------- */
  /* The crossfade and its automatic fade                                    */
  /* ---------------------------------------------------------------------- */

  /** Range of the crossfade slider: all of the first deck at the start, all of the second at the end. */
  const FadeStart: real := 0.0
  const FadeEnd: real := 1.0
  /** The crossfade time slider's initial value, in milliseconds (its range is 155 to 3000). */
  const DefaultCrossfadeTime: real := 1000.0
  /** Milliseconds between two ticks of the playlist's timer. */
  const TickMillis: real := 10.0

  predicate InRange(value: real) {
    FadeStart <= value <= FadeEnd
  }

  /** `setCrossfade`: the first deck's share is one minus the slider value, the second deck's the value. */
  function CrossfadeShares(value: real): (shares: (real, real))
    ensures shares.0 + shares.1 == 1.0 && shares.1 == value
    ensures InRange(value) ==> 0.0 <= shares.0 <= 1.0 && 0.0 <= shares.1 <= 1.0
  {
    (1.0 - value, value)
  }

  /** One deck as the playlist drives it: its controls and its player. */
  datatype Side = Side(deck: DG.Deck, player: AP.Player)

  /**
    `setCrossfade` applied to both decks: each deck records its share, and
    each player takes it, as the slider keeps the value in range.
   */
  function SetCrossfade(value: real, first: Side, second: Side): (r: (Side, Side))
    ensures r.0.deck == first.deck.(crossfadeRatio := 1.0 - value)
    ensures r.1.deck == second.deck.(crossfadeRatio := value)
    ensures InRange(value) ==>
      && r.0.player == first.player.(currentCrossfadeRatio := 1.0 - value)
      && r.1.player == second.player.(currentCrossfadeRatio := value)
      && r.0.player.currentCrossfadeRatio + r.1.player.currentCrossfadeRatio == 1.0
  {
    var (a, b) := CrossfadeShares(value);
    var (d0, p0) := DG.SetCrossfadeRatio(first.deck, first.player, a);
    var (d1, p1) := DG.SetCrossfadeRatio(second.deck, second.player, b);
    (Side(d0, p0), Side(d1, p1))
  }

  /** The automatic crossfade: the slider value, its step per timer tick, and whether it runs. */
  datatype Fader = Fader(value: real, increment: real, active: bool)

  /**
    The step per tick of a fade over `time` milliseconds: the slider's whole
    range in `time / 10` ticks, towards the end for direction 1 and towards
    the start for direction -1.
   */
  function CrossfadeIncrement(time: real, direction: int): (inc: real)
    requires time != 0.0
    ensures inc * (time / TickMillis) == (FadeEnd - FadeStart) * direction as real
    ensures time > 0.0 ==> (inc > 0.0 <==> direction > 0) && (inc < 0.0 <==> direction < 0)
  {
    (FadeEnd - FadeStart) / (time / TickMillis) * direction as real
  }

  /** At construction the slider is set to its end and a fade towards the start runs over the default time. */
  function NewFader(): (f: Fader)
    ensures f == Fader(FadeEnd, -0.01, true)
  {
    Fader(FadeEnd, CrossfadeIncrement(DefaultCrossfadeTime, -1), true)
  }

  /**
    `timerCallback`: while the fade runs and the value lies in the range, the
    value steps by the increment, held to the range (the slider would hold
    it there too); the fade stops once the value is at either end.
   */
  function FaderTick(f: Fader): (r: Fader)
    ensures r.increment == f.increment
    ensures !f.active ==> r == f
    ensures InRange(f.value) ==> InRange(r.value)
    ensures f.active && InRange(f.value) && InRange(f.value + f.increment) ==> r.value == f.value + f.increment
    ensures f.active && InRange(f.value) && f.value + f.increment > FadeEnd ==> r.value == FadeEnd
    ensures f.active && InRange(f.value) && f.value + f.increment < FadeStart ==> r.value == FadeStart
    ensures r.active <==> f.active && r.value != FadeStart && r.value != FadeEnd
  {
    var v :=
      if f.active && InRange(f.value) then
        var stepped := f.value + f.increment;
        if stepped >= FadeEnd then FadeEnd else if stepped <= FadeStart then FadeStart else stepped
      else f.value;
    Fader(v, f.increment, f.active && v != FadeEnd && v != FadeStart)
  }

  /** `n` ticks of the timer. */
  function Ticks(f: Fader, n: nat): Fader
    decreases n
  {
    if n == 0 then f else Ticks(FaderTick(f), n - 1)
  }

  /** A stopped fade stays where it is. */
  lemma {:induction false} IdleTicks(f: Fader, n: nat)
    requires !f.active
    ensures Ticks(f, n) == f
    decreases n
  {
    if n > 0 {
      IdleTicks(FaderTick(f), n - 1);
    }
  }

  /** A running fade with a positive step reaches the end and stops within as many ticks as cover the distance. */
  lemma {:induction false} FadeUpCompletes(f: Fader, n: nat)
    requires f.active && InRange(f.value) && f.increment > 0.0
    requires n >= 1 && n as real * f.increment >= FadeEnd - f.value
    ensures Ticks(f, n) == Fader(FadeEnd, f.increment, false)
    decreases n
  {
    var g := FaderTick(f);
    if g.active {
      assert g.value == f.value + f.increment;
      assert (n - 1) as real * f.increment == n as real * f.increment - f.increment;
      assert (n - 1) as real * f.increment > 0.0;
      FadeUpCompletes(g, n - 1);
    } else {
      IdleTicks(g, n - 1);
    }
  }

  /** A running fade with a negative step reaches the start and stops within as many ticks as cover the distance. */
  lemma {:induction false} FadeDownCompletes(f: Fader, n: nat)
    requires f.active && InRange(f.value) && f.increment < 0.0
    requires n >= 1 && n as real * -f.increment >= f.value - FadeStart
    ensures Ticks(f, n) == Fader(FadeStart, f.increment, false)
    decreases n
  {
    var g := FaderTick(f);
    if g.active {
      assert g.value == f.value + f.increment;
      assert (n - 1) as real * -f.increment == n as real * -f.increment + f.increment;
      assert (n - 1) as real * -f.increment > 0.0;
      FadeDownCompletes(g, n - 1);
    } else {
      IdleTicks(g, n - 1);
    }
  }

  /** The fade started at construction gives the whole mix to the first deck after 100 ticks, one second. */
  lemma StartupFade()
    ensures Ticks(NewFader(), 100) == Fader(FadeStart, -0.01, false)
    ensures CrossfadeShares(Ticks(NewFader(), 100).value) == (1.0, 0.0)
  {
    FadeDownCompletes(NewFader(), 100);
  }

  /** Enough ticks for the crossfade time cover the whole range at that time's step. */
  lemma CoverRange(time: real, n: nat)
    requires time > 0.0 && n as real >= time / TickMillis
    ensures n >= 1
    ensures n as real * ((FadeEnd - FadeStart) / (time / TickMillis)) >= FadeEnd - FadeStart
  {
    var q := time / TickMillis;
    var step := (FadeEnd - FadeStart) / q;
    assert q * step == FadeEnd - FadeStart;
    assert (n as real - q) * step >= 0.0;
  }

  /**
    `triggerAutoCrossfade`: the fade restarts from where the slider is
    towards its far end (towards the start from 0.5 up, as `std::round`
    rounds halves away from zero), and every deck that is not playing is
    pressed; the two flags say which.
   */
  function TriggerAutoCrossfade(f: Fader, time: real, playing: (bool, bool)): (r: (Fader, bool, bool))
    requires time != 0.0
    ensures r.0.active && r.0.value == f.value
    ensures time > 0.0 && InRange(f.value) ==> r.0.increment != 0.0 && (r.0.increment < 0.0 <==> f.value >= 0.5)
    ensures r.1 == !playing.0 && r.2 == !playing.1
  {
    (Fader(f.value, CrossfadeIncrement(time, 1 - 2 * Round(f.value)), true), !playing.0, !playing.1)
  }

  /**
    A triggered fade left to run for the crossfade time, counted in ticks,
    ends at the far end of the slider and stops: the deck that had the
    smaller share ends with the whole mix.
   */
  lemma TriggeredFadeCompletes(f: Fader, time: real, playing: (bool, bool), n: nat)
    requires time > 0.0 && InRange(f.value)
    requires n as real >= time / TickMillis
    ensures var g := TriggerAutoCrossfade(f, time, playing).0;
      Ticks(g, n) == Fader(if f.value >= 0.5 then FadeStart else FadeEnd, g.increment, false)
  {
    var g := TriggerAutoCrossfade(f, time, playing).0;
    CoverRange(time, n);
    if f.value >= 0.5 {
      assert Round(f.value) == 1;
      FadeDownCompletes(g, n);
    } else {
      assert Round(f.value) == 0;
      FadeUpCompletes(g, n);
    }
  }

  /* ---------------------------------------------------------------------- */
  /* Autoplay                                                                */
  /* ---------------------------------------------------------------------- */

  /** The autoplay button as shown, and the playlist's own flag `autoplayToggle`. */
  datatype Autoplay = Autoplay(button: bool, toggle: bool)

  /**
    What a click on the autoplay button does: the library afterwards, the
    button and flag, the track each deck is given, and whether the first
    deck is pressed.
   */
  datatype Engaged = Engaged(tracks: seq<Track>, autoplay: Autoplay, load0: Option<Track>, load1: Option<Track>, start0: bool)

  /** A deck without a file is given the front track, which moves to the back. */
  function FeedDeck(tracks: seq<Track>, loaded: bool): (r: (seq<Track>, Option<Track>))
    requires |tracks| > 0
    ensures |r.0| == |tracks| && multiset(r.0) == multiset(tracks)
    ensures loaded ==> r == (tracks, None)
    ensures !loaded ==> r.0 == tracks[1..] + [tracks[0]] && r.1 == Some(tracks[0])
  {
    if loaded then (tracks, None) else (RotateToBack(tracks), Some(tracks[0]))
  }

  /** Both decks in turn: the library afterwards and the track each deck without a file is given. */
  function FeedDecks(tracks: seq<Track>, loaded: (bool, bool)): (r: (seq<Track>, Option<Track>, Option<Track>))
    requires |tracks| > 0
    ensures |r.0| == |tracks| && multiset(r.0) == multiset(tracks)
    ensures r.1.Some? <==> !loaded.0
    ensures r.2.Some? <==> !loaded.1
    ensures r.1.Some? ==> r.1.value == tracks[0]
    ensures r.2.Some? ==> r.2.value == (if loaded.0 then tracks[0] else tracks[1 % |tracks|])
    ensures loaded.0 && loaded.1 ==> r.0 == tracks
    ensures r.0 == RotateTimes(tracks, (if loaded.0 then 0 else 1) + (if loaded.1 then 0 else 1))
  {
    var (t1, l0) := FeedDeck(tracks, loaded.0);
    assert !loaded.0 ==> t1[0] == tracks[1 % |tracks|];
    var (t2, l1) := FeedDeck(t1, loaded.1);
    var once := RotateToBack(tracks);
    assert RotateTimes(tracks, 1) == RotateTimes(once, 0) == once;
    assert !loaded.0 && !loaded.1 ==> t2 == RotateTimes(tracks, 2) by {
      if !loaded.0 && !loaded.1 {
        assert RotateTimes(tracks, 2) == RotateTimes(once, 1);
        assert RotateTimes(once, 1) == RotateTimes(RotateToBack(once), 0);
      }
    }
    (t2, l0, l1)
  }

  /**
    A click on the autoplay button, which flips the button before
    `engageAutoplay` runs. With tracks in the library the flag flips; when it
    turns on, each deck without a file in turn is given the front track,
    which moves to the back, and the first deck is pressed if neither deck
    plays. With an empty library the button is turned back off; as written
    the flag keeps its value, corrected it is turned off too.
   */
  function ClickAutoplay(tracks: seq<Track>, a: Autoplay, loaded: (bool, bool), playing: (bool, bool), variant: Variant): (r: Engaged)
    ensures |r.tracks| == |tracks| && multiset(r.tracks) == multiset(tracks)
    ensures |tracks| == 0 ==> !r.autoplay.button && r.load0.None? && r.load1.None? && !r.start0
    ensures |tracks| == 0 ==> r.autoplay.toggle == (variant == AsWritten && a.toggle)
    ensures |tracks| > 0 ==> r.autoplay == Autoplay(!a.button, !a.toggle)
    ensures r.load0.Some? <==> |tracks| > 0 && r.autoplay.toggle && !loaded.0
    ensures r.load1.Some? <==> |tracks| > 0 && r.autoplay.toggle && !loaded.1
    ensures r.load0.Some? ==> r.load0.value == tracks[0]
    ensures r.load1.Some? ==> r.load1.value == (if loaded.0 then tracks[0] else tracks[1 % |tracks|])
    ensures r.start0 <==> |tracks| > 0 && r.autoplay.toggle && !playing.0 && !playing.1
    ensures r.load0.None? && r.load1.None? ==> r.tracks == tracks
    ensures |tracks| > 0 && r.autoplay.toggle ==> r.tracks == FeedDecks(tracks, loaded).0
    ensures !r.autoplay.toggle ==> r.tracks == tracks
    ensures variant == Corrected && a.button == a.toggle ==> r.autoplay.button == r.autoplay.toggle
  {
    if |tracks| == 0 then
      Engaged(tracks, Autoplay(false, if variant == Corrected then false else a.toggle), None, None, false)
    else if a.toggle then
      Engaged(tracks, Autoplay(!a.button, false), None, None, false)
    else
      var (fed, l0, l1) := FeedDecks(tracks, loaded);
      Engaged(fed, Autoplay(!a.button, true), l0, l1, !playing.0 && !playing.1)
  }

  /** Turning autoplay on with both decks empty gives them the first two tracks and moves those two to the back. */
  lemma AutoplayFeedsBothDecks(tracks: seq<Track>, a: Autoplay, playing: (bool, bool), variant: Variant)
    requires |tracks| >= 2 && !a.toggle
    ensures var r := ClickAutoplay(tracks, a, (false, false), playing, variant);
      r.load0 == Some(tracks[0]) && r.load1 == Some(tracks[1]) && r.tracks == tracks[2..] + tracks[..2]
  {
    var once := RotateToBack(tracks);
    assert RotateTimes(tracks, 2) == RotateToBack(once) by {
      assert RotateTimes(tracks, 2) == RotateTimes(once, 1);
      assert RotateTimes(once, 1) == RotateTimes(RotateToBack(once), 0);
    }
    RotateTimesSplits(tracks, 2);
  }

  /**
    As written, a click while autoplay is on and the library is empty turns
    the button off but leaves the flag on. After a track is added, the next
    click turns the button on and the flag off: no deck is fed, yet the deck
    messages, which read the button, treat autoplay as on.
   */
  lemma AutoplayDesync(t: Track, loaded: (bool, bool), playing: (bool, bool))
    ensures var first := ClickAutoplay([], Autoplay(true, true), loaded, playing, AsWritten);
      && first.autoplay == Autoplay(false, true)
      && var second := ClickAutoplay([t], first.autoplay, loaded, playing, AsWritten);
        && second.autoplay == Autoplay(true, false)
        && second.load0.None? && second.load1.None? && !second.start0
  {
  }

  /** One click on the autoplay button, with the library and decks as they then are. */
  datatype Click = Click(tracks: seq<Track>, loaded: (bool, bool), playing: (bool, bool))

  /** The button and flag after a run of clicks. */
  function AfterClicks(a: Autoplay, clicks: seq<Click>, variant: Variant): Autoplay
    decreases |clicks|
  {
    if |clicks| == 0 then a
    else
      var c := clicks[0];
      AfterClicks(ClickAutoplay(c.tracks, a, c.loaded, c.playing, variant).autoplay, clicks[1..], variant)
  }

  /** Corrected, the button always shows the flag, whatever the clicks and whatever the library holds at each. */
  lemma {:induction false} AutoplayStaysInSync(a: Autoplay, clicks: seq<Click>)
    requires a.button == a.toggle
    ensures AfterClicks(a, clicks, Corrected).button == AfterClicks(a, clicks, Corrected).toggle
    decreases |clicks|
  {
    if |clicks| > 0 {
      var c := clicks[0];
      AutoplayStaysInSync(ClickAutoplay(c.tracks, a, c.loaded, c.playing, Corrected).autoplay, clicks[1..]);
    }
  }

  /* ---------------------------------------------------------------------- */
  /* Messages from the decks                                                 */
  /* ---------------------------------------------------------------------- */

  /**
    What the playlist does when a deck reports a change: the library
    afterwards, the fader, the track the reporting deck is given, and whether
    the other deck is pressed.
   */
  datatype Reaction = Reaction(tracks: seq<Track>, fader: Fader, load: Option<Track>, startOther: bool)

  /**
    The autoplay part of `changeListenerCallback` for a message from deck
    `i`, with the autoplay button as shown: a deck whose stream is nearly
    over presses the other deck if that one is idle and starts a fade
    towards the other deck over the crossfade time; a deck whose stream has
    ended is given the front track (its end flags cleared and rewound by the
    load), which moves to the back. With the button off nothing happens.
   */
  function DeckReport(tracks: seq<Track>, f: Fader, button: bool, i: nat, d: DG.Deck, otherPlaying: bool, time: real): (r: Reaction)
    requires i < 2 && time != 0.0
    requires button && d.streamEnded ==> |tracks| > 0
    ensures !button ==> r == Reaction(tracks, f, None, false)
    ensures |r.tracks| == |tracks| && multiset(r.tracks) == multiset(tracks)
    ensures r.fader.value == f.value
    ensures button && d.streamNearlyEnded && !d.streamEnded ==>
      && r.tracks == tracks && r.load.None? && r.startOther == !otherPlaying && r.fader.active
      && (time > 0.0 ==> (r.fader.increment > 0.0 <==> i == 0) && r.fader.increment != 0.0)
    ensures button && d.streamEnded ==>
      r.load == Some(tracks[0]) && r.tracks == tracks[1..] + [tracks[0]] && r.fader == f && !r.startOther
    ensures !d.streamEnded && !d.streamNearlyEnded ==> r == Reaction(tracks, f, None, false)
  {
    if !button then Reaction(tracks, f, None, false)
    else if d.streamNearlyEnded && !d.streamEnded then
      Reaction(tracks, Fader(f.value, CrossfadeIncrement(time, 1 - 2 * i), true), None, !otherPlaying)
    else if d.streamEnded then
      Reaction(RotateToBack(tracks), f, Some(tracks[0]), false)
    else
      Reaction(tracks, f, None, false)
  }

  /**
    Once a deck reports its stream nearly over and the crossfade time has
    passed in ticks, the fade has stopped with that deck's share at zero.
   */
  lemma ReportedDeckFadesOut(tracks: seq<Track>, f: Fader, i: nat, d: DG.Deck, otherPlaying: bool, time: real, n: nat)
    requires i < 2 && time > 0.0 && InRange(f.value)
    requires d.streamNearlyEnded && !d.streamEnded
    requires n as real >= time / TickMillis
    ensures var g := Ticks(DeckReport(tracks, f, true, i, d, otherPlaying, time).fader, n);
      !g.active && (if i == 0 then CrossfadeShares(g.value).0 else CrossfadeShares(g.value).1) == 0.0
  {
    var g := DeckReport(tracks, f, true, i, d, otherPlaying, time).fader;
    CoverRange(time, n);
    if i == 0 {
      FadeUpCompletes(g, n);
    } else {
      FadeDownCompletes(g, n);
    }
  }

  /** The end of `changeListenerCallback`: each deck's target tempo becomes the tempo the other deck publishes. */
  function SyncTempos(d0: DG.Deck, d1: DG.Deck): (r: (DG.Deck, DG.Deck))
    ensures r.0 == d0.(targetBpm := d1.bpm) && r.1 == d1.(targetBpm := d0.bpm)
  {
    var e1 := if d1.targetBpm != d0.bpm then d1.(targetBpm := d0.bpm) else d1;
    var e0 := if d0.targetBpm != e1.bpm then d0.(targetBpm := e1.bpm) else d0;
    (e0, e1)
  }

  /** A deck given the tempo `tempo` as its target: its tempo match as the deck's controls compute it. */
  lemma TargetMatch(d: DG.Deck, tempo: int)
    ensures var m := DG.MatchTempo(d.(targetBpm := tempo));
      && (m.Some? <==> d.bpm > 0 && tempo > 0)
      && (m.Some? && DG.MinSpeed <= tempo as real / d.bpm as real <= DG.MaxSpeed ==> m.value * d.bpm as real == tempo as real)
  {
    var e := d.(targetBpm := tempo);
    assert e.bpm == d.bpm && e.targetBpm == tempo;
  }

  /**
    After the exchange each deck's tempo match has a speed exactly when both
    decks publish a tempo, and within the speed range that speed plays the
    deck at the other's tempo; a second exchange changes nothing.
   */
  lemma SyncedDecksMatch(d0: DG.Deck, d1: DG.Deck)
    ensures var (e0, e1) := SyncTempos(d0, d1);
      && (DG.MatchTempo(e0).Some? <==> d0.bpm > 0 && d1.bpm > 0)
      && (DG.MatchTempo(e1).Some? <==> d0.bpm > 0 && d1.bpm > 0)
      && (DG.MatchTempo(e0).Some? && DG.MinSpeed <= d1.bpm as real / d0.bpm as real <= DG.MaxSpeed ==>
            DG.MatchTempo(e0).value * d0.bpm as real == d1.bpm as real)
      && (DG.MatchTempo(e1).Some? && DG.MinSpeed <= d0.bpm as real / d1.bpm as real <= DG.MaxSpeed ==>
            DG.MatchTempo(e1).value * d1.bpm as real == d0.bpm as real)
      && SyncTempos(e0, e1) == (e0, e1)
  {
    TargetMatch(d0, d1.bpm);
    TargetMatch(d1, d0.bpm);
  }
}
