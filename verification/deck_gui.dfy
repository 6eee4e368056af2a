/**
  The sequential logic of one deck (`DeckGUI`): the play/stop button with
  its end-of-stream handling, the flag and tempo resets on load, the
  end-of-stream notifications, the periodic timer that feeds the meters and
  publishes the estimated tempo, tempo matching against the other deck, and
  the minutes-and-seconds position display.

  The transport is observed, not simulated: whether it is playing, its
  position and its length are parameters, and the button's effect on it is
  returned as a command.
 */
module DeckGUI {
  import opened CNumeric
  import opened Wrappers
  import opened Text
  import AP = DJAudioPlayer
  import LM = LevelMeter

  datatype Status = NoFileLoaded | Queued | Playing | Stopped

  /** What the play button asks of the transport. */
  datatype Command = Keep | Start | Stop

  datatype Deck = Deck(
    bpm: int,                  // this deck's published tempo, -1 when none
    targetBpm: int,            // the other deck's published tempo
    fileLoaded: bool,
    status: Status,
    streamEnded: bool,
    streamNearlyEnded: bool,
    volume: real,              // volume slider, percent
    speed: real,               // speed slider, a resampling ratio
    crossfadeRatio: real,      // this deck's share of the crossfade
    levelL: LM.Meter,
    levelR: LM.Meter
  )

  /** Published tempo before any estimate. */
  const NoBpm: int := -1
  /** Meter blocks per level meter. */
  const MeterResolution: int := 31
  /** Range of the speed slider. */
  const MinSpeed: real := 0.5
  const MaxSpeed: real := 2.0
  /** Seconds before the end at which the deck reports that its track is nearly over. */
  const NearlyEndedSeconds: real := 5.0

  /**
    The constructor. The other deck's tempo and the crossfade share are not
    initialised by the constructor, so they are parameters here.
   */
  function New(targetBpm: int, crossfadeRatio: real): (d: Deck)
    ensures d.bpm == NoBpm && !d.fileLoaded && d.status == NoFileLoaded
    ensures !d.streamEnded && !d.streamNearlyEnded
    ensures d.volume == 100.0 && d.speed == 1.0
    ensures d.levelL == LM.New(MeterResolution, true) && d.levelR == LM.New(MeterResolution, true)
    ensures d.targetBpm == targetBpm && d.crossfadeRatio == crossfadeRatio
  {
    Deck(NoBpm, targetBpm, false, NoFileLoaded, false, false, 100.0, 1.0, crossfadeRatio,
         LM.New(MeterResolution, true), LM.New(MeterResolution, true))
  }

  /* ---------------------------------------------------------------------- */
  /* The play button                                                         */
  /* ---------------------------------------------------------------------- */

  /** Outcome of pressing play: the deck, the transport command, and whether the position slider is sent back to 0. */
  datatype Press = Press(deck: Deck, command: Command, rewind: bool)

  /**
    `play`. An ended stream has its end flags cleared and the status set to
    Queued, and the position slider is sent back to 0 (`rewind`). The
    slider notifies its listener asynchronously, so the seek that follows
    is left to the caller and happens after `play` returns: the position
    read below is still the one observed before the press. Then a playing
    transport is stopped (Stopped if it is past the start, else Queued), a
    stopped one is started if a file is loaded, and otherwise nothing more
    happens.
   */
  function Play(d: Deck, isPlaying: bool, position: real): (r: Press)
    ensures r.rewind <==> d.streamEnded
    ensures !r.deck.streamEnded
    ensures r.deck.streamNearlyEnded == (d.streamNearlyEnded && !d.streamEnded)
    ensures isPlaying ==>
              (r.command == Stop && r.deck.status == (if position > 0.0 then Stopped else Queued))
    ensures !isPlaying && d.fileLoaded ==> r.command == Start && r.deck.status == Playing
    ensures !isPlaying && !d.fileLoaded ==>
              (r.command == Keep && r.deck.status == (if d.streamEnded then Queued else d.status))
    ensures r.deck == d.(status := r.deck.status, streamEnded := r.deck.streamEnded,
                         streamNearlyEnded := r.deck.streamNearlyEnded)
  {
    var rewound := if d.streamEnded then d.(streamEnded := false, streamNearlyEnded := false, status := Queued) else d;
    if isPlaying then
      Press(rewound.(status := if position > 0.0 then Stopped else Queued), Stop, d.streamEnded)
    else if rewound.fileLoaded then
      Press(rewound.(status := Playing), Start, d.streamEnded)
    else
      Press(rewound, Keep, d.streamEnded)
  }

  /** On a loaded deck the button alternates: a press starts a stopped transport and the next press stops it. */
  lemma PlayToggles(d: Deck, position: real)
    requires d.fileLoaded
    ensures var first := Play(d, false, position);
      first.command == Start && first.deck.status == Playing &&
      var second := Play(first.deck, true, position);
      second.command == Stop && !second.rewind && second.deck.status in {Stopped, Queued}
  {
  }

  /* ---------------------------------------------------------------------- */
  /* Loading, end of stream and the crossfade share                          */
  /* ---------------------------------------------------------------------- */

  /**
    `loadFile`: the player loads the reader (given by its sample rate, or
    none when the file could not be opened) and receives the deck's volume
    (as a fraction) and crossfade share; the deck is Queued with no tempo,
    no end flags, and a file loaded, whether or not the reader opened.
   */
  function LoadFile(d: Deck, p: AP.Player, readerSampleRate: Option<real>): (r: (Deck, AP.Player))
    ensures r.0 == d.(status := Queued, bpm := NoBpm, streamEnded := false, streamNearlyEnded := false, fileLoaded := true)
    ensures r.1 == AP.SetCrossfadeRatio(AP.SetGain(AP.LoadURL(p, readerSampleRate), d.volume / 100.0), d.crossfadeRatio)
    ensures readerSampleRate.Some? ==> r.1.estimator.bpm == AP.BPMCalculator.NoTempo && r.1.estimator.instantBpm == []
    ensures 0.0 <= d.crossfadeRatio <= 1.0 ==> r.1.currentCrossfadeRatio == d.crossfadeRatio
  {
    (d.(status := Queued, bpm := NoBpm, streamEnded := false, streamNearlyEnded := false, fileLoaded := true),
     AP.SetCrossfadeRatio(AP.SetGain(AP.LoadURL(p, readerSampleRate), d.volume / 100.0), d.crossfadeRatio))
  }

  /** After a load, pressing play starts the transport. */
  lemma LoadThenPlay(d: Deck, p: AP.Player, rate: Option<real>, position: real)
    ensures Play(LoadFile(d, p, rate).0, false, position).command == Start
  {
  }

  /**
    `changeListenerCallback` for a message from this deck's player: the
    stream is flagged ended, and the deck notifies its listeners, the first
    time the position is found at or past the length in whole seconds.
   */
  function ChangeListener(d: Deck, position: real, lengthInSeconds: int): (r: (Deck, bool))
    ensures r.1 <==> !d.streamEnded && position >= lengthInSeconds as real
    ensures r.0 == d.(streamEnded := d.streamEnded || r.1)
  {
    if position >= lengthInSeconds as real && !d.streamEnded then (d.(streamEnded := true), true) else (d, false)
  }

  /** The end of a stream is reported once: a second message finds the flag set and says nothing. */
  lemma EndReportedOnce(d: Deck, position: real, position2: real, lengthInSeconds: int)
    ensures !ChangeListener(ChangeListener(d, position, lengthInSeconds).0, position2, lengthInSeconds).1 ||
            !ChangeListener(d, position, lengthInSeconds).1
    ensures ChangeListener(d, position, lengthInSeconds).1 ==>
            ChangeListener(ChangeListener(d, position, lengthInSeconds).0, position2, lengthInSeconds).0
              == ChangeListener(d, position, lengthInSeconds).0
  {
  }

  /** `setCrossfadeRatio`: the deck keeps the share as given; the player accepts it only within [0, 1]. */
  function SetCrossfadeRatio(d: Deck, p: AP.Player, ratio: real): (r: (Deck, AP.Player))
    ensures r.0 == d.(crossfadeRatio := ratio)
    ensures 0.0 <= ratio <= 1.0 ==> r.1 == p.(currentCrossfadeRatio := ratio)
    ensures !(0.0 <= ratio <= 1.0) ==> r.1 == p
  {
    (d.(crossfadeRatio := ratio), AP.SetCrossfadeRatio(p, ratio))
  }

  /* ---------------------------------------------------------------------- */
  /* The periodic timer                                                      */
  /* ---------------------------------------------------------------------- */

  /** Outcome of one timer tick: the deck, the player, and whether the deck notified its listeners. */
  datatype Tick = Tick(deck: Deck, player: AP.Player, notified: bool)

  /**
    `timerCallback`. While playing, the held peaks are read (and reset) into
    the two meters, and the deck reports, once, that fewer than five seconds
    remain; while stopped both meters are shown silence. Then the player's
    tempo, truncated, is published when it differs while playing, or
    whenever the other deck's tempo is the sentinel -1.
   */
  function Timer(d: Deck, p: AP.Player, isPlaying: bool, position: real, lengthInSeconds: int, meterExtent: int): (r: Tick)
    requires d.levelL.blockSize != 0.0 && d.levelR.blockSize != 0.0
    ensures r.deck.streamNearlyEnded == (d.streamNearlyEnded || (isPlaying && lengthInSeconds as real - position < NearlyEndedSeconds))
    ensures r.deck.streamNearlyEnded && !d.streamNearlyEnded ==> r.notified
    ensures isPlaying ==>
              (r.player == AP.GetLevels(p).2 && r.deck.levelL.peak >= p.leftPeak && r.deck.levelR.peak >= p.rightPeak)
    ensures !isPlaying ==> r.player == p
    ensures var published := (d.bpm != Trunc(p.currentBPM) && isPlaying) || d.targetBpm == NoBpm;
      r.deck.bpm == (if published then Trunc(p.currentBPM) else d.bpm) && (published ==> r.notified)
    ensures r.deck == d.(streamNearlyEnded := r.deck.streamNearlyEnded, bpm := r.deck.bpm,
                         levelL := r.deck.levelL, levelR := r.deck.levelR)
    ensures r.deck.levelL == LM.DisplayLevel(d.levelL, if isPlaying then p.leftPeak else 0.0, meterExtent)
    ensures r.deck.levelR == LM.DisplayLevel(d.levelR, if isPlaying then p.rightPeak else 0.0, meterExtent)
    ensures r.notified <==>
      || (isPlaying && lengthInSeconds as real - position < NearlyEndedSeconds && !d.streamNearlyEnded)
      || (d.bpm != Trunc(p.currentBPM) && isPlaying) || d.targetBpm == NoBpm
  {
    var (levels, q) := if isPlaying then var g := AP.GetLevels(p); ((g.0, g.1), g.2) else ((0.0, 0.0), p);
    var shown := d.(levelL := LM.DisplayLevel(d.levelL, levels.0, meterExtent),
                    levelR := LM.DisplayLevel(d.levelR, levels.1, meterExtent));
    var nearly := isPlaying && lengthInSeconds as real - position < NearlyEndedSeconds && !d.streamNearlyEnded;
    var flagged := if nearly then shown.(streamNearlyEnded := true) else shown;
    var tempo := Trunc(p.currentBPM);
    var published := (d.bpm != tempo && isPlaying) || d.targetBpm == NoBpm;
    Tick(if published then flagged.(bpm := tempo) else flagged, q, nearly || published)
  }

  /** Once the near-end report has been made, later ticks do not repeat it: they notify only to publish a tempo. */
  lemma NearlyEndedReportedOnce(d: Deck, p: AP.Player, isPlaying: bool, position: real, lengthInSeconds: int, meterExtent: int)
    requires d.levelL.blockSize != 0.0 && d.levelR.blockSize != 0.0
    requires d.streamNearlyEnded
    ensures var r := Timer(d, p, isPlaying, position, lengthInSeconds, meterExtent);
      r.deck.streamNearlyEnded && (r.notified <==> (d.bpm != Trunc(p.currentBPM) && isPlaying) || d.targetBpm == NoBpm)
  {
  }

  /* ---------------------------------------------------------------------- */
  /* Tempo matching                                                          */
  /* ---------------------------------------------------------------------- */

  /**
    `matchTempo`: with both tempos known (positive), the speed slider moves
    to the ratio of the other deck's tempo to this one's, clamped to the
    slider's range; otherwise nothing happens. The slider forwards its new
    value to the player's `setSpeed`.
   */
  function MatchTempo(d: Deck): (speed: Option<real>)
    ensures speed.Some? <==> d.bpm > 0 && d.targetBpm > 0
    ensures speed.Some? ==> MinSpeed <= speed.value <= MaxSpeed
    ensures speed.Some? && MinSpeed <= d.targetBpm as real / d.bpm as real <= MaxSpeed ==>
              speed.value * d.bpm as real == d.targetBpm as real
    ensures speed.Some? && d.targetBpm as real < MinSpeed * d.bpm as real ==> speed.value == MinSpeed
    ensures speed.Some? && d.targetBpm as real > MaxSpeed * d.bpm as real ==> speed.value == MaxSpeed
  {
    if d.bpm > 0 && d.targetBpm > 0 then
      var ratio := d.targetBpm as real / d.bpm as real;
      QuotientCompare(d.targetBpm as real, d.bpm as real, MinSpeed);
      QuotientCompare(d.targetBpm as real, d.bpm as real, MaxSpeed);
      var ratio := if ratio < MinSpeed then MinSpeed else ratio;
      var ratio := if ratio > MaxSpeed then MaxSpeed else ratio;
      Some(ratio)
    else None
  }

  lemma QuotientCompare(t: real, b: real, c: real)
    requires b > 0.0
    ensures t / b < c <==> t < c * b
    ensures t / b > c <==> t > c * b
    ensures (t / b) * b == t
  {
    var q := t / b;
    assert q * b == t;
    if q < c { assert q * b < c * b; }
    if q > c { assert q * b > c * b; }
    if t < c * b { assert q * b < c * b; }
    if t > c * b { assert q * b > c * b; }
  }

  /** A matched speed is always one the player accepts. */
  lemma MatchedSpeedAccepted(d: Deck, p: AP.Player)
    requires MatchTempo(d).Some?
    ensures AP.SetSpeed(p, MatchTempo(d).value) == p.(resamplingRatio := MatchTempo(d).value)
  {
  }

  /* ---------------------------------------------------------------------- */
  /* Position display                                                        */
  /* ---------------------------------------------------------------------- */

  /** Tenths of a second past the whole seconds, truncated. */
  function Tenths(value: real): (t: int)
    ensures value >= 0.0 ==> 0 <= t < 10
  {
    var (minutes, seconds) := MinutesAndSeconds(value);
    Trunc((value - (minutes * 60) as real - seconds as real) * 10.0)
  }

  /**
    `secondsToMinutesAndSeconds` as written: minutes and a prime when there
    is at least one minute, the seconds (with a leading zero only when the
    seconds are below ten and the minutes above one), then a point, the
    tenths and a double prime.
   */
  function SecondsToMinutesAndSeconds(value: real): (text: string)
  {
    var (minutes, seconds) := MinutesAndSeconds(value);
    var text := if minutes > 0 then IntToString(minutes) + "'" else "";
    var text := if seconds < 10 && minutes > 1 then text + "0" + IntToString(seconds) else text + IntToString(seconds);
    text + "." + IntToString(Tenths(value)) + "\""
  }

  /**
    The position text as written reads back for every non-negative time:
    the minutes and a prime when a minute is shown, then the seconds in one
    digit, or in two when they reach ten or the minutes exceed one, then a
    point, the tenths digit and a double prime.
   */
  lemma SecondsReadBack(value: real)
    requires value >= 0.0
    ensures var text := SecondsToMinutesAndSeconds(value);
      var (minutes, seconds) := MinutesAndSeconds(value);
      var k := if minutes > 0 then |IntToString(minutes)| + 1 else 0;
      var w := if seconds >= 10 || minutes > 1 then 2 else 1;
      && |text| == k + w + 3
      && (minutes > 0 ==> text[..k] == IntToString(minutes) + "'")
      && AllDigits(text[k..k + w]) && DigitsValue(text[k..k + w]) == seconds
      && text[k + w] == '.' && text[k + w + 1] == DigitChar(Tenths(value)) && text[k + w + 2] == '"'
  {
    var (minutes, seconds) := MinutesAndSeconds(value);
    var m := if minutes > 0 then IntToString(minutes) + "'" else "";
    var digits := if seconds < 10 && minutes > 1 then "0" + IntToString(seconds) else IntToString(seconds);
    SecondsField(seconds, minutes);
    var t := Tenths(value);
    assert SecondsToMinutesAndSeconds(value) == m + digits + "." + [DigitChar(t)] + "\"" by {
      assert IntToString(t) == [DigitChar(t)];
    }
    Layout(m, digits, DigitChar(t));
  }

  /** Where the parts of a position text sit. */
  lemma Layout(m: string, digits: string, c: char)
    ensures var text := m + digits + "." + [c] + "\"";
      var k, w := |m|, |digits|;
      && |text| == k + w + 3 && text[..k] == m && text[k..k + w] == digits
      && text[k + w] == '.' && text[k + w + 1] == c && text[k + w + 2] == '"'
  {
  }

  /** The seconds as the position text writes them: their digits, with a leading zero below ten past the first minute. */
  lemma SecondsField(seconds: int, minutes: int)
    requires 0 <= seconds < 60
    ensures var digits := if seconds < 10 && minutes > 1 then "0" + IntToString(seconds) else IntToString(seconds);
      && |digits| == (if seconds >= 10 || minutes > 1 then 2 else 1)
      && AllDigits(digits) && DigitsValue(digits) == seconds
  {
    TwoDigitsIsPadded(seconds);
    if seconds < 10 && minutes > 1 {
      assert "0" + IntToString(seconds) == TwoDigits(seconds);
    } else if seconds >= 10 {
      assert IntToString(seconds) == TwoDigits(seconds);
    } else {
      assert IntToString(seconds) == NatToString(seconds) == [DigitChar(seconds)];
      DigitsValueOfNatToString(seconds);
    }
  }

  /** The display with the leading zero whenever a minute is shown. */
  function SecondsToMinutesAndSecondsPadded(value: real): (text: string)
    requires value >= 0.0
    ensures var (minutes, seconds) := MinutesAndSeconds(value);
      minutes > 0 ==> text == IntToString(minutes) + "'" + TwoDigits(seconds) + "." + IntToString(Tenths(value)) + "\""
    ensures MinutesAndSeconds(value).0 == 0 ==> text == SecondsToMinutesAndSeconds(value)
  {
    var (minutes, seconds) := MinutesAndSeconds(value);
    if minutes > 0 then IntToString(minutes) + "'" + TwoDigits(seconds) + "." + IntToString(Tenths(value)) + "\""
    else SecondsToMinutesAndSeconds(value)
  }

  /**
    With a minute shown, the padded display puts the seconds in exactly two
    digits between the prime and the point, so they read back unambiguously.
   */
  lemma {:induction false} PaddedSecondsReadBack(value: real)
    requires value >= 60.0
    ensures var text := SecondsToMinutesAndSecondsPadded(value);
      var (minutes, seconds) := MinutesAndSeconds(value);
      var k := |IntToString(minutes)| + 1;
      k + 3 <= |text| && text[k - 1] == '\'' && text[k + 2] == '.' &&
      AllDigits(text[k..k + 2]) && DigitsValue(text[k..k + 2]) == seconds
  {
    var (minutes, seconds) := MinutesAndSeconds(value);
    assert minutes >= 1;
    var m := IntToString(minutes) + "'";
    var text := SecondsToMinutesAndSecondsPadded(value);
    var rest := "." + IntToString(Tenths(value)) + "\"";
    assert text == m + TwoDigits(seconds) + rest;
    var k := |m|;
    assert text[k..k + 2] == TwoDigits(seconds);
    assert text[k + 2] == rest[0];
  }

  /** At 65 seconds the display as written shows one seconds digit; at 125 seconds it shows two. */
  lemma InconsistentPadding()
    ensures SecondsToMinutesAndSeconds(65.0) == "1'5.0\""
    ensures SecondsToMinutesAndSeconds(125.0) == "2'05.0\""
    ensures SecondsToMinutesAndSecondsPadded(65.0) == "1'05.0\""
  {
    assert MinutesAndSeconds(65.0) == (1, 5);
    assert Tenths(65.0) == 0;
    assert MinutesAndSeconds(125.0) == (2, 5);
    assert Tenths(125.0) == 0;
  }
}
