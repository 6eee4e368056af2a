# OtoDecks core in Dafny

A functional model of the core of OtoDecks, a two-deck DJ application built on JUCE:

- **Tempo estimator** (`BPMCalculator`). Stereo frames are gathered into blocks. Each block's energy enters a FIFO of about one second of block energies. A block that clears an adaptive threshold (`cMult * variance + cAdd` times the window mean) twice in a row counts as a beat. About every five seconds of audio, the span's beat count becomes one instantaneous tempo. A five-second timer averages the tempo log and folds the mean into [90, 180] by halving and doubling.
- **Player** (`DJAudioPlayer`). It holds the peak levels, with a max-and-reset read, and feeds frames into the estimator's block FIFO. It also has the range-checked setters, the relative position queries, and the partial estimator reset when a track is loaded.
- **Deck controls** (`DeckGUI`). These cover:
  - the play/stop button with its end-of-stream handling;
  - the resets on load;
  - the end-of-stream notifications;
  - the timer that feeds the meters and publishes the tempo;
  - tempo matching;
  - the minutes-and-seconds position display.
- **Level meter** (`LevelMeter`). A smoothed level follows rises at once and decays by a falloff factor, with a silence floor. It also keeps a peak hold and computes the number of blocks to paint.
- **Playlist** (`PlaylistComponent`). The library is a sequence of tracks stored in a tab-separated file. The model covers:
  - id allocation, removal by id and the front-to-back rotation that feeds autoplay;
  - filtering by title and the track-length display;
  - the crossfade between the two decks and its automatic fade on a 10 ms timer;
  - autoplay, the reaction to the decks' end-of-stream messages, and the exchange of tempos between the decks.

Each source class is one module, and each method is a pure function or a method over an immutable record. Queues are sequences, oldest first. Samples, energies and times are exact reals. C++'s truncating conversions and integer division are written out in `CNumeric`: `(int)` casts, `/` and `%` on `int`, and `std::round`. The text conversions are written out in `Text`: `std::to_string`, `std::stol`, and `std::getline` splitting.

Parameters stand in for what the model cannot see:

- **Transport:** whether the deck is playing, its position and its length.
- **Audio data:** the frames a callback produces.
- **File access:** the sample rate of a newly opened reader (or none), the text of the library file (or none), and the name, URL and length of an added audio file.
- **Foreign routines:** the float rendering of track lengths, their parsing (none where `std::stof` throws), and the regular-expression title match.

Loading a track does not restart the estimator from scratch. `DJAudioPlayer::loadURL` resets only the sample rate, the debounce and beat counters, the tempo log and the displayed tempo. The block FIFO, the energy window and both block counters carry over from the previous track (`DJAudioPlayer.LoadURL`).

## Model

| member | source | states |
|---|---|---|
| CNumeric.Trunc | Source/DeckGUI.cpp:441-442 | `(int)` of a real rounds toward zero: the result is within one of the value, on the same side of zero |
| CNumeric.CRem | Source/DeckGUI.cpp:441 | C++ `%` takes the sign of the dividend, completes C++ `/` so that quotient times divisor plus remainder is the dividend, and agrees with the mathematical remainder for non-negative operands |
| CNumeric.CDiv | Source/LevelMeter.cpp:78-84 | C++ `/` on ints truncates toward zero: the quotient's sign is that of the exact quotient and quotient times divisor is the largest such multiple not above the dividend in magnitude; it agrees with floor division for non-negative operands |
| CNumeric.Round | Source/PlaylistComponent.cpp:466 | `std::round` is within one half of its argument, with halves going away from zero |
| Text.IntToString | Source/PlaylistComponent.cpp:377 | `std::to_string` of a long is non-empty, all digits, with a leading minus exactly for negatives |
| Text.ParseLong | Source/PlaylistComponent.cpp:395 | `std::stol` succeeds only with a value in the range of `long` |
| Text.ParseLongOfIntToString | Source/PlaylistComponent.cpp:395 | `stol` reads back every `long` that `to_string` wrote |
| Text.Split | Source/PlaylistComponent.cpp:389-394 | the fields `getline` extracts with a delimiter never contain the delimiter |
| Text.SplitFour | Source/PlaylistComponent.cpp:391-394 | four delimiter-free fields joined by tabs split back into exactly those four |
| Text.SplitTerminated | Source/PlaylistComponent.cpp:356 | reading newline-terminated lines back with `getline` returns exactly those lines |
| Text.MinutesAndSeconds | Source/DeckGUI.cpp:441-442 | for a non-negative time, seconds lie in [0, 60) and minutes times 60 plus seconds is the truncated time |
| Text.TwoDigits | Source/PlaylistComponent.cpp:479-482 | seconds below 60 are written in exactly two digits that read back as the seconds |
| BPMCalculator.New | Source/BPMCalculator.cpp:14-24 | the constructor's block size 1024, sentinel tempo -1, empty queues and zero counters |
| BPMCalculator.BlockEnergy | Source/BPMCalculator.cpp:36-41 | block energy is non-negative and zero exactly when every frame is silent |
| BPMCalculator.DrainBlock | Source/BPMCalculator.cpp:36-41 | the drain loop returns the block's energy and leaves the block FIFO empty |
| BPMCalculator.AverageLocalEnergy | Source/BPMCalculator.cpp:74-89 | the mean of the first `blocksPerSecond` energies (0 for none); the rotation leaves a queue of that length as it was |
| BPMCalculator.EnergyVariance | Source/BPMCalculator.cpp:91-106 | the population variance about the given mean (0 for none), never negative; the queue is rotated the same way |
| BPMCalculator.Threshold | Source/BPMCalculator.cpp:108-112 | a non-negative variance never raises the threshold factor above `cAdd`, and the factor is `cAdd` exactly for zero variance |
| BPMCalculator.ThresholdNonIncreasing | Source/BPMCalculator.h:87-88 | with `cMult` negative, a larger variance never gives a larger threshold factor; zero variance gives `cAdd` |
| BPMCalculator.WindowStatistics | Source/BPMCalculator.cpp:46-51 | the full-window branch pops one energy; on a window of exactly `blocksPerSecond` it computes that window's mean and variance |
| BPMCalculator.BlocksPerSecond | Source/BPMCalculator.cpp:33-34 | `blocksPerSecond` is the whole number of blocks in one second of audio |
| BPMCalculator.GetBlockEnergy | Source/BPMCalculator.cpp:31-73 | a step keeps the sample rate, block size and displayed tempo, empties the block FIFO and counts one block |
| BPMCalculator.StepCounts | Source/BPMCalculator.cpp:42-50 | the block FIFO empties and the block counter advances; the span counter advances or, with a full window, restarts as one tempo is logged; a window not yet full gains the block's energy, a full one keeps its size |
| BPMCalculator.SlidingWindow | Source/BPMCalculator.cpp:46-51 | with exactly `blocksPerSecond` energies, the stored average, variance and threshold are those of the whole window, and the oldest energy leaves |
| BPMCalculator.ZeroWindow | Source/BPMCalculator.cpp:85-88 | with zero blocks per second the window is always full, average and variance are 0, and any block with energy is a peak |
| BPMCalculator.DebounceStep | Source/BPMCalculator.cpp:46-65 | the peak counter stays in {0, 1}; a beat is counted exactly on the second consecutive peak of a full window; a quiet block resets the counter; nothing moves while the window fills |
| BPMCalculator.BeatCountsInSpan | Source/BPMCalculator.cpp:55-71 | a beat also counts in the span's tally, unless that block closes the span |
| BPMCalculator.SpanClosing | Source/BPMCalculator.cpp:66-71 | one tempo is appended exactly when the window is full, the sample rate is positive and the span has more than five seconds of blocks; the span counters restart; otherwise the log is unchanged |
| BPMCalculator.CalculateBPM | Source/BPMCalculator.cpp:114-120 | the span tempo times the span's seconds of audio is 60 times its beats, and it is non-negative |
| BPMCalculator.SpanTempo | Source/BPMCalculator.cpp:114-120 | the appended tempo is the span's beats, including one counted by this block, per minute of the span's audio |
| BPMCalculator.BeatCounterMonotone | Source/BPMCalculator.cpp:55-60 | the cumulative beat count never decreases and grows by at most one per block |
| BPMCalculator.LogAppendOnly | Source/BPMCalculator.cpp:119 | over any run of blocks, the tempo log keeps its old entries as a prefix and gains at most one entry per block |
| BPMCalculator.WindowSize | Source/BPMCalculator.cpp:42-50 | with at least one block per second, the energy queue holds the lesser of its start size plus the blocks seen and `blocksPerSecond - 1` |
| BPMCalculator.StatisticsSeeFullWindow | Source/BPMCalculator.cpp:46 | from a queue below `blocksPerSecond`, the statistics run exactly when the pushed queue holds `blocksPerSecond` energies |
| BPMCalculator.HalveWhileAbove | Source/BPMCalculator.cpp:136-137 | halving stops in (90, 180] for a value above 180 and leaves others alone |
| BPMCalculator.DoubleWhileBelow | Source/BPMCalculator.cpp:138-139 | for a value above 1, doubling stops in [90, 180) when the value is below 90 and leaves it alone otherwise |
| BPMCalculator.FoldOctave | Source/BPMCalculator.cpp:134-140 | a value in (1, 1000) ends in [90, 180]; any other value, such as the sentinel, is untouched |
| BPMCalculator.HalveIsOctave | Source/BPMCalculator.cpp:136-137 | the halving loop's result, doubled some number of times, is the original value |
| BPMCalculator.DoubleIsOctave | Source/BPMCalculator.cpp:138-139 | the doubling loop's result is the value doubled some number of times |
| BPMCalculator.FoldIsOctave | Source/BPMCalculator.cpp:134-140 | folding changes a tempo only by a power of two, so its octave class is kept |
| BPMCalculator.FoldIdempotent | Source/BPMCalculator.cpp:134-140 | values in [90, 180] are left alone, so folding twice is folding once |
| BPMCalculator.FoldExamples | Source/BPMCalculator.cpp:134-140 | 45 folds to 90, 200 to 100, 360 to 180 (not 90), 180 and 90 stay, and -1 stays |
| BPMCalculator.TimerCallback | Source/BPMCalculator.cpp:122-141 | a tick keeps the tempo log and changes only the displayed tempo: the folded mean of the log, or the folded previous tempo when the log is empty |
| BPMCalculator.ReconcilerRange | Source/BPMCalculator.cpp:124-140 | a mean tempo in (1, 1000) is displayed in [90, 180], and the sentinel survives an empty log |
| BPMCalculator.ReconcilerIdempotent | Source/BPMCalculator.cpp:122-141 | a second reconciler tick with no new spans changes nothing |
| DJAudioPlayer.Magnitude | Source/DJAudioPlayer.cpp:36-37 | a channel's magnitude bounds every sample's absolute value and is attained, or is 0 |
| DJAudioPlayer.TrackPeaks | Source/DJAudioPlayer.cpp:36-41 | each held peak is the larger of its old value and the block's magnitude, and covers every sample |
| DJAudioPlayer.MagnitudeOfConcat | Source/DJAudioPlayer.cpp:36-41 | the magnitude of two blocks together is the larger of their magnitudes |
| DJAudioPlayer.GetLevels | Source/DJAudioPlayer.cpp:168-176 | a read returns the held left and right peaks and resets both to 0, leaving the rest of the player unchanged |
| DJAudioPlayer.PeakHold | Source/DJAudioPlayer.cpp:168-176 | reading the levels returns the held peaks and clears them, so between two reads the reading is the loudest sample of the blocks in between |
| DJAudioPlayer.FeedFrames | Source/DJAudioPlayer.cpp:43-52 | every frame is pushed once, in order; a FIFO holding a full block is handed over and emptied before the push; every handed-over block is full; the FIFO never exceeds the block size; with no frames nothing is handed over and the FIFO is unchanged |
| DJAudioPlayer.ScaleComposes | Source/DJAudioPlayer.cpp:53-57 | the crossfade gain followed by the scrubbing gain scales every sample by their product, and a gain of 1 leaves the block as it is |
| DJAudioPlayer.GetNextAudioBlock | Source/DJAudioPlayer.cpp:30-58 | the estimator sees exactly the full blocks drained, in order; the tempo is copied only if a block was drained; with no frames the estimator and tempo are unchanged; peaks follow the block; the output is scaled by the crossfade share (and 0.1 while scrubbing) |
| DJAudioPlayer.LoadURL | Source/DJAudioPlayer.cpp:66-82 | with a reader: new sample rate, zeroed debounce and beat counters, empty log, sentinel tempo, with FIFOs and block counters carried over; without one: no change |
| DJAudioPlayer.LoadURLResets | Source/DJAudioPlayer.cpp:74-80 | after a load the reconciler shows no tempo, a second load of the same reader changes nothing, and the estimator stays valid |
| DJAudioPlayer.SetGain | Source/DJAudioPlayer.cpp:89-99 | a gain is taken exactly when it lies in [0, 100]; otherwise the player is unchanged |
| DJAudioPlayer.SetCrossfadeRatio | Source/DJAudioPlayer.cpp:101-109 | a crossfade ratio is taken exactly when it lies in [0, 1]; otherwise the player is unchanged |
| DJAudioPlayer.SetSpeed | Source/DJAudioPlayer.cpp:111-117 | a resampling ratio is taken exactly when it lies in [0.5, 2]; otherwise the player is unchanged |
| DJAudioPlayer.SettersKeepRange | Source/DJAudioPlayer.cpp:89-117 | the gain, crossfade and speed setters ignore out-of-range values, so whatever value is passed they never take a player out of range |
| DJAudioPlayer.SetPositionRelative | Source/DJAudioPlayer.cpp:124-133 | a seek happens exactly for a fraction in [0, 1], to that fraction of the length |
| DJAudioPlayer.GetPositionRelative | Source/DJAudioPlayer.cpp:155-161 | the fraction is 0 without a length, otherwise it times the length is the position (in [0, 1] within the track) |
| DJAudioPlayer.PositionRoundTrip | Source/DJAudioPlayer.cpp:124-161 | seeking to a fraction and reading it back gives the same fraction |
| DJAudioPlayer.LengthInSeconds | Source/DJAudioPlayer.cpp:163-166 | the length is truncated to whole seconds |
| LevelMeter.New | Source/LevelMeter.cpp:15-32 | the constructor's defaults: no block size, nothing shown, floor 0.01, falloff 0.95 |
| LevelMeter.Resized | Source/LevelMeter.cpp:78-84 | the block size is the whole number of pixels per block of the extent |
| LevelMeter.Smooth | Source/LevelMeter.cpp:88-104 | a rise is followed at once; otherwise the level decays by the falloff (0.8 once below 0.2), not below the new level, and is zeroed under the floor; the peak is the running maximum |
| LevelMeter.Blocks | Source/LevelMeter.cpp:105-114 | the blocks to paint plus the last block's opacity make up the scaled level; for a non-negative level and a positive block size, the count is exactly the number of whole blocks that fit in the level truncated to whole pixels, and the opacity is non-negative |
| LevelMeter.BlockFit | Source/LevelMeter.cpp:107-108 | the truncated pixel count over the block size, truncated again, is the number of whole blocks that fit, one more block not fitting |
| LevelMeter.DisplayLevel | Source/LevelMeter.cpp:86-117 | the shown level is at least the new level or is 0 under the floor; it does not rise without a louder level; the peak never decreases |
| LevelMeter.FalloffSticky | Source/LevelMeter.cpp:95-96 | the falloff changes exactly when a non-rise finds the level below 0.2 for the first time, and never reverts |
| LevelMeter.SteadyLevel | Source/LevelMeter.cpp:92-101 | a steady level at or above the floor is shown unchanged |
| LevelMeter.SilenceDecays | Source/LevelMeter.cpp:92-102 | silence makes a shown level fall strictly, to 0 once under the floor |
| LevelMeter.ResizedCanDisplay | Source/LevelMeter.cpp:78-84 | a meter resized to at least its resolution has a block size of at least one pixel |
| DeckGUI.New | Source/DeckGUI.cpp:24-27 | a new deck has no tempo, no file, no end flags, volume 100 and speed 1 |
| DeckGUI.Play | Source/DeckGUI.cpp:379-401 | an ended stream has its end flags cleared, is re-queued and has its slider sent back to 0, the seek itself following the press; then a playing transport stops (Stopped when the position observed before the press is past the start, else Queued), a loaded one starts (Playing), otherwise nothing |
| DeckGUI.PlayToggles | Source/DeckGUI.cpp:388-400 | on a loaded deck one press starts the transport and the next stops it |
| DeckGUI.LoadFile | Source/DeckGUI.cpp:336-353 | a load queues the deck with no tempo, no end flags and a file loaded, and hands the player the reader, the volume as a fraction and the crossfade share |
| DeckGUI.LoadThenPlay | Source/DeckGUI.cpp:396-400 | after a load, pressing play on a stopped transport starts it |
| DeckGUI.ChangeListener | Source/DeckGUI.cpp:402-409 | the end is flagged and reported exactly when the position reaches the length and it was not yet flagged |
| DeckGUI.EndReportedOnce | Source/DeckGUI.cpp:404-408 | the end of a stream is reported at most once |
| DeckGUI.SetCrossfadeRatio | Source/DeckGUI.cpp:368-372 | the deck records its share; the player takes it only within [0, 1] |
| DeckGUI.Timer | Source/DeckGUI.cpp:297-325 | each meter is updated with the read peak while playing and with 0 while stopped; while playing the peaks are reset and the near end is flagged once under five seconds left; the tempo is published when it changes while playing or while the other deck has none; the deck notifies exactly for a first near end or a publish |
| DeckGUI.NearlyEndedReportedOnce | Source/DeckGUI.cpp:308-312 | once flagged, the near end is not reported again |
| DeckGUI.MatchTempo | Source/DeckGUI.cpp:426-436 | a speed is set exactly when both tempos are positive; it is the tempo ratio clamped to [0.5, 2], and within range it brings this deck to the other's tempo |
| DeckGUI.MatchedSpeedAccepted | Source/DeckGUI.cpp:432-434 | a matched speed is always one the player accepts |
| DeckGUI.Tenths | Source/DeckGUI.cpp:449-450 | the tenths digit of a non-negative time is in [0, 10) |
| DeckGUI.SecondsReadBack | Source/DeckGUI.cpp:438-452 | the position text as written reads back for every non-negative time: the minutes and a prime when a minute is shown, then digits worth the seconds (two of them exactly when the seconds reach ten or the minutes exceed one), a point, the tenths digit and a double prime |
| DeckGUI.PaddedSecondsReadBack | Source/DeckGUI.cpp:445-448 | in the padded text the two characters between prime and point are digits that read back as the seconds |
| DeckGUI.InconsistentPadding | Source/DeckGUI.cpp:445-448 | as written, 65 s shows `1'5.0"` while 125 s shows `2'05.0"`; padded, 65 s shows `1'05.0"` |
| PlaylistComponent.Tokenise | Source/PlaylistComponent.cpp:385-400 | a line without a tab is rejected; an accepted line has a `long` id and tab-free title and URL; a line of four fields with a readable id is accepted exactly when `stof` reads its length |
| PlaylistComponent.TrackLineFields | Source/PlaylistComponent.cpp:377 | a written line splits at its tabs into exactly its four fields |
| PlaylistComponent.TokeniseTrackLine | Source/PlaylistComponent.cpp:385-399 | reading a written line gives back its id, title and URL with the length its text parses to, and fails with a length error when `stof` rejects the text |
| PlaylistComponent.ParseLines | Source/PlaylistComponent.cpp:356-362 | a read succeeds exactly when every line tokenises, giving one track per line in order, each from that line's fields; a failed read reports the error of a line that does not tokenise |
| PlaylistComponent.Collect | Source/PlaylistComponent.cpp:356-362 | the tokenised lines become tracks in order, and the first line that fails ends the load with its error |
| PlaylistComponent.NextAfter | Source/PlaylistComponent.cpp:359-360 | the next id never decreases and only ever becomes one past an id read; with the corrected comparison it passes every id read |
| PlaylistComponent.LoadMusicLib | Source/PlaylistComponent.cpp:350-365 | an unopened file changes nothing; an opened file loads exactly when every line reads, else fails with the first bad line's error; the tracks read are appended after the existing ones and the next id advances past their ids as the variant says, never decreasing; corrected, a fresh library with unique ids stays fresh |
| PlaylistComponent.AppendRead | Source/PlaylistComponent.cpp:356-362 | appending the tracks read keeps the library as a prefix, and the corrected next id passes all of them |
| PlaylistComponent.SaveLoadRoundTrip | Source/PlaylistComponent.cpp:367-383 | saving storable tracks whose rendered lengths `stof` reads, and loading the file into an empty library, gives the same tracks back, each length passed through the float rendering and parsing |
| PlaylistComponent.SaveLoadRejectsLength | Source/PlaylistComponent.cpp:397 | a saved library in which one rendered length is rejected by `stof` does not load |
| PlaylistComponent.SplitSaved | Source/PlaylistComponent.cpp:367-383 | the saved text of storable tracks splits at its newlines into exactly one written line per track, in library order |
| PlaylistComponent.ParseWritten | Source/PlaylistComponent.cpp:385-399 | the written lines of storable tracks read back, in order, as those tracks with their lengths rendered and parsed |
| PlaylistComponent.LoadFileToMusicLib | Source/PlaylistComponent.cpp:402-421 | an opened file is appended as one track with the next id, which then advances by one; an unopened file changes nothing; freshness is kept |
| PlaylistComponent.AddWithTakenId | Source/PlaylistComponent.cpp:409-417 | adding a file while a track already holds the next id gives two tracks the same id |
| PlaylistComponent.NextAfterZeroOneTwo | Source/PlaylistComponent.cpp:359-360 | reading ids 0, 1, 2 from next id 0 stops at 2 as written and reaches 3 corrected |
| PlaylistComponent.DuplicateIdAsWritten | Source/PlaylistComponent.cpp:359-360 | as written, a library file with ids 0, 1, 2 followed by one added file yields a duplicate id; corrected, the library stays fresh |
| PlaylistComponent.FirstWithId | Source/PlaylistComponent.cpp:533-535 | the index the linear search stops at: the first track with the id, or the end |
| PlaylistComponent.RemoveAt | Source/PlaylistComponent.cpp:537 | erasing one index leaves the other tracks in order, one fewer, the same multiset less that track |
| PlaylistComponent.RemoveFromLibrary | Source/PlaylistComponent.cpp:530-543 | the first track with the id is removed and the rest keep their order; an absent id changes nothing |
| PlaylistComponent.RemovalKeepsFresh | Source/PlaylistComponent.cpp:537 | removing any one track from a fresh library leaves it fresh |
| PlaylistComponent.RemovalRemovesOne | Source/PlaylistComponent.cpp:533-540 | in a fresh library the removed track is the one with the id and no track with that id remains |
| PlaylistComponent.EmptyPlaylist | Source/PlaylistComponent.cpp:545-550 | emptying leaves no tracks and keeps the next id, so the library is fresh |
| PlaylistComponent.RotateToBack | Source/PlaylistComponent.cpp:447-451 | the front track moves to the back and the others move up, keeping length and multiset |
| PlaylistComponent.RotateTimesSplits | Source/PlaylistComponent.cpp:447-451 | `n` rotations, up to the library's length, move the first `n` tracks to the back in order |
| PlaylistComponent.RotateFullCycle | Source/PlaylistComponent.cpp:447-451 | one rotation per track restores the original order |
| PlaylistComponent.RotatePreservesFresh | Source/PlaylistComponent.cpp:447-451 | rotation keeps ids unique and below the next id |
| PlaylistComponent.Matching | Source/PlaylistComponent.cpp:505-509 | the tracks shown form a subsequence of the library holding exactly the tracks whose title matches |
| PlaylistComponent.FilterByTitle | Source/PlaylistComponent.cpp:493-513 | an empty term shows exactly the library; otherwise an order-preserving subsequence holding exactly the matching tracks |
| PlaylistComponent.MatchingAppend | Source/PlaylistComponent.cpp:505-509 | filtering a concatenation filters each part on its own, so library order is kept |
| PlaylistComponent.MatchingIdempotent | Source/PlaylistComponent.cpp:505-509 | filtering the shown tracks again with the same term shows the same tracks |
| PlaylistComponent.FilterIdempotent | Source/PlaylistComponent.cpp:493-513 | searching again with the same term among the tracks shown shows the same tracks |
| PlaylistComponent.LengthToMinutesAndSeconds | Source/PlaylistComponent.cpp:476-491 | a non-negative length shows as the whole minutes and a prime when there is a minute, then the seconds in exactly two digits and a double prime |
| PlaylistComponent.LengthReadBack | Source/PlaylistComponent.cpp:479-489 | the length text reads back as the truncated length: minutes before the prime, when shown, and two digits of seconds before the double prime |
| PlaylistComponent.CrossfadeShares | Source/PlaylistComponent.cpp:240-246 | the two shares sum to 1, the second is the slider value, and both lie in [0, 1] for a value in range |
| PlaylistComponent.SetCrossfade | Source/PlaylistComponent.cpp:240-246 | each deck records its share, and for a value in range the two players take shares that sum to 1 |
| PlaylistComponent.CrossfadeIncrement | Source/PlaylistComponent.cpp:99 | a fade step covers the slider's range in `time / 10` ticks, its sign following the direction |
| PlaylistComponent.NewFader | Source/PlaylistComponent.cpp:84-99 | at construction the slider is at its end and a fade towards the start runs in steps of 0.01 |
| PlaylistComponent.FaderTick | Source/PlaylistComponent.cpp:285-299 | a tick keeps the value in range, steps it by the increment, held at the nearer end, and stops the fade exactly at an end; a stopped fade is unchanged |
| PlaylistComponent.IdleTicks | Source/PlaylistComponent.cpp:287 | a stopped fade stays where it is over any number of ticks |
| PlaylistComponent.FadeUpCompletes | Source/PlaylistComponent.cpp:285-299 | a running fade with a positive step reaches the end and stops within enough ticks to cover the distance |
| PlaylistComponent.FadeDownCompletes | Source/PlaylistComponent.cpp:285-299 | a running fade with a negative step reaches the start and stops within enough ticks to cover the distance |
| PlaylistComponent.StartupFade | Source/PlaylistComponent.cpp:84-100 | the fade started at construction gives the whole mix to the first deck after 100 ticks |
| PlaylistComponent.TriggerAutoCrossfade | Source/PlaylistComponent.cpp:464-470 | the fade restarts from where the slider is, towards the start from 0.5 up and towards the end below, and presses every deck not playing |
| PlaylistComponent.TriggeredFadeCompletes | Source/PlaylistComponent.cpp:464-470 | a triggered fade run for the crossfade time ends at the far end and stops |
| PlaylistComponent.FeedDecks | Source/PlaylistComponent.cpp:443-453 | each deck without a file in turn gets the current front track, which moves to the back, so the library afterwards is the input rotated once per fed deck, and it keeps its multiset |
| PlaylistComponent.ClickAutoplay | Source/PlaylistComponent.cpp:435-462 | with tracks the flag flips, and turning on feeds the unloaded decks and presses the first deck if neither plays, leaving the library as feeding the decks left it; turning off leaves the library alone; an empty library is untouched, with the button forced off; corrected, button and flag stay equal |
| PlaylistComponent.AutoplayFeedsBothDecks | Source/PlaylistComponent.cpp:443-453 | turning autoplay on with both decks empty gives them the first two tracks and moves those two to the back |
| PlaylistComponent.AutoplayDesync | Source/PlaylistComponent.cpp:459-461 | as written, clicking on an empty library turns the button off but leaves the flag on, and the next click turns the button on and the flag off without feeding any deck |
| PlaylistComponent.AutoplayStaysInSync | Source/PlaylistComponent.cpp:435-462 | corrected, the button shows the flag after any run of clicks on any libraries |
| PlaylistComponent.DeckReport | Source/PlaylistComponent.cpp:248-277 | with the button on, a nearly-ended deck presses the idle other deck and starts a fade towards it; an ended deck gets the front track, which moves to the back; with the button off nothing happens |
| PlaylistComponent.ReportedDeckFadesOut | Source/PlaylistComponent.cpp:255-262 | after a nearly-ended report and the crossfade time in ticks, the fade has stopped with the reporting deck's share at 0 |
| PlaylistComponent.SyncTempos | Source/PlaylistComponent.cpp:278-282 | each deck's target tempo becomes the other deck's published tempo, nothing else changing |
| PlaylistComponent.SyncedDecksMatch | Source/PlaylistComponent.cpp:278-282 | after the exchange, each deck's tempo match has a speed exactly when both tempos are positive and brings it to the other's tempo within range; a second exchange changes nothing |

## Left out

- Painting, layout, colours, the waveform display, the look-and-feel classes and the application wiring in `MainComponent`: they draw or connect, and hold no logic of their own.
- The JUCE transport, resampler, format readers, file choosers, `juce::String` and `juce::URL`: they are replaced by parameters (play state, position, length, frames, reader sample rate, URL text).
- Concurrency: the estimator's reconciler runs on a message-thread timer while blocks arrive on the audio thread, without locking; each call is one atomic step on the shared state.
- Floating point: samples, energies, tempos and times are exact reals, so `float`/`double` rounding is not modelled. For example, the 0.01 crossfade steps reach an end exactly here, while the source relies on the clamp.
- The float rendering of track lengths (`std::to_string`) and their parsing (`std::stof`, none where it throws) are parameters. The library round trip gives back each length as the parameters transform it.
- `std::regex` with `icase` is a title-matching parameter. An invalid search term throws `regex_error` in the source; that is not modelled.
- The file I/O of `loadMusicLib` and `saveMusicLib` is left out: the file is its text, or none when it cannot be opened. The saves after every change are left out too, because only the line format matters to the model.
- PlaylistComponent.Tokenise: the source indexes the token vector without a check, and lets exceptions from `stol` and `stof` escape. A line with fewer than four fields, an unreadable id or an unreadable length is undefined behaviour or a crash there. Here it is an error result that ends the load.
- PlaylistComponent.DeckReport: requires a non-empty library when an ended deck is reported with autoplay on, because the source reads the front track without a check.
- BPMCalculator.New: the source leaves `sampleRate` and `beatCounter` uninitialised. They start at 0 here, and the steps require a non-negative sample rate, which `loadURL` sets before audio arrives.
- Table interaction (`cellClicked`, `cellDoubleClicked`, `loadIfNotPlaying`, the delete and return keys, file drops) only forwards a row's track or id to the operations modelled here, and is left out.
- The displayed track list, the search box text and the table refresh are left out. The model covers the filter's result, not the widgets.
- The crossfade slider's percentage text and the deck sliders' text formatting are display only.
- LevelMeter.DisplayLevel: a block size of 0 is excluded (so are LevelMeter.Blocks and DeckGUI.Timer, which call it). The block size starts at 0 and `resized` makes it 0 for a meter shorter or narrower than its resolution in pixels; `displayLevel` then divides by zero and converts the result to `int`, which is undefined behaviour in the source.
- DeckGUI.LoadFile: the change message the load sends, and the position slider's new range, are not modelled.
- Deck-level effects of the playlist's reactions: `DeckReport` and `ClickAutoplay` return the track each deck is given and which deck is pressed. Applying these through `DeckGUI.LoadFile` and `DeckGUI.Play` is left to the caller.
- The crossfade time slider's range (155 to 3000 ms) is not enforced: the fade lemmas hold for any positive time.
- The setters' diagnostic messages on standard output are not modelled.

## Findings

| source | as written | input that shows it | evidently intended | confidence | as-written member | corrected member |
|---|---|---|---|---|---|---|
| Source/PlaylistComponent.cpp:359-360 | the next id advances only past an id strictly above it, so an id equal to the next id is not passed | a library file with ids 0, 1, 2, loaded from next id 0, leaves the next id at 2; the next added file also gets id 2 | advance past every id at or above the next id (`>=`), so added tracks get fresh ids | high; not executed | PlaylistComponent.DuplicateIdAsWritten | PlaylistComponent.LoadMusicLib |
| Source/DeckGUI.cpp:445-448 | the seconds get a leading zero only when the minutes exceed one | 65 s shows `1'5.0"` while 125 s shows `2'05.0"` | pad the seconds whenever a minute is shown (`minutes > 0`) | high; not executed | DeckGUI.InconsistentPadding | DeckGUI.PaddedSecondsReadBack |
| Source/PlaylistComponent.cpp:459-461 | with an empty library, the click turns the button off but leaves the internal autoplay flag unchanged | autoplay on, empty the library, click (button off, flag on), add a track, click (button on, flag off): no deck is fed, yet deck messages see autoplay as on | turn the flag off together with the button, so button and flag always agree | medium; not executed | PlaylistComponent.AutoplayDesync | PlaylistComponent.AutoplayStaysInSync |
