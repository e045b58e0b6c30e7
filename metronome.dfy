/**
 * The metronome's lookahead beat scheduler and its transport controls.
 *
 * The audio clock is the `now` argument of every operation, each firing of
 * the re-arming timeout is a call to `Wake`, and booking a click on the
 * audio clock is recorded by appending its time to the ghost `emitted`.
 * Times are exact reals: the model is about cursor arithmetic, not about
 * floating-point rounding.
 */
module Metronome {

  /** Tempo bounds of the slider and the step buttons, in beats per minute. */
  const MIN_BPM: int := 40
  const MAX_BPM: int := 240
  const INITIAL_BPM: int := 100
  /** Change made by one press of a tempo button. */
  const TEMPO_STEP: int := 5
  /** How far ahead of the audio clock one pass books clicks, in seconds. */
  const SCHEDULE_AHEAD: real := 0.1
  /** Delay of the first beat after a start from a stale cursor, in seconds. */
  const LEAD_IN: real := 0.05
  /** The shortest beat, 60 / MAX_BPM seconds: it bounds the clicks one pass can book. */
  const MIN_STEP: real := 0.25

  /** A beat `s` with `s * bpm == 60` is within [MIN_STEP, 1.5] for bpm in [40, 240]. */
  lemma BeatLengthBounds(s: real, b: real)
    requires 40.0 <= b <= 240.0 && s == 60.0 / b
    ensures s * b == 60.0
    ensures MIN_STEP <= s <= 1.5
  {
  }

  /** `60 / bpm`: the beat length, between a quarter and one and a half seconds. */
  function SecondsPerBeat(bpm: int): (s: real)
    requires MIN_BPM <= bpm <= MAX_BPM
    ensures s * bpm as real == 60.0
    ensures MIN_STEP <= s <= 1.5
  {
    var s := 60.0 / bpm as real;
    BeatLengthBounds(s, bpm as real);
    s
  }

  /** The tempo after the minus button: five less, but not below MIN_BPM. */
  function TempoDown(b: int): (r: int)
    ensures MIN_BPM <= r
    ensures r == b - TEMPO_STEP || r == MIN_BPM
    ensures r <= b || r == MIN_BPM
    ensures r >= b - TEMPO_STEP
    ensures b <= MAX_BPM ==> r <= MAX_BPM
  {
    if b - TEMPO_STEP > MIN_BPM then b - TEMPO_STEP else MIN_BPM
  }

  /** The tempo after the plus button: five more, but not above MAX_BPM. */
  function TempoUp(b: int): (r: int)
    ensures r <= MAX_BPM
    ensures r == b + TEMPO_STEP || r == MAX_BPM
    ensures r >= b || r == MAX_BPM
    ensures r <= b + TEMPO_STEP
    ensures b >= MIN_BPM ==> r >= MIN_BPM
  {
    if b + TEMPO_STEP < MAX_BPM then b + TEMPO_STEP else MAX_BPM
  }

  /**
   * The clicks one scheduling pass books: starting at `cursor`, every beat
   * `step` apart that falls before `horizon`.
   */
  function PassClicks(cursor: real, step: real, horizon: real): seq<real>
    requires step >= MIN_STEP
    decreases ((horizon - cursor) / MIN_STEP).Floor
  {
    if cursor < horizon then [cursor] + PassClicks(cursor + step, step, horizon) else []
  }

  /** Where the cursor stands after that pass. */
  function PassEnd(cursor: real, step: real, horizon: real): real
    requires step >= MIN_STEP
    decreases ((horizon - cursor) / MIN_STEP).Floor
  {
    if cursor < horizon then PassEnd(cursor + step, step, horizon) else cursor
  }

  /**
   * After a pass the cursor has reached the horizon and never moved back;
   * every click booked lies in [cursor, horizon); a pass books something
   * exactly when the cursor was short of the horizon.
   */
  lemma {:induction false} PassBounds(cursor: real, step: real, horizon: real)
    requires step >= MIN_STEP
    ensures PassEnd(cursor, step, horizon) >= horizon
    ensures PassEnd(cursor, step, horizon) >= cursor
    ensures forall i :: 0 <= i < |PassClicks(cursor, step, horizon)| ==>
      cursor <= PassClicks(cursor, step, horizon)[i] < horizon
    ensures PassClicks(cursor, step, horizon) == [] <==> cursor >= horizon
    ensures cursor >= horizon ==> PassEnd(cursor, step, horizon) == cursor
    decreases ((horizon - cursor) / MIN_STEP).Floor
  {
    if cursor < horizon {
      PassBounds(cursor + step, step, horizon);
    }
  }

  /** A pass that books anything books the cursor first and then continues one beat later. */
  lemma PassUnfold(cursor: real, step: real, horizon: real)
    requires step >= MIN_STEP && cursor < horizon
    ensures PassClicks(cursor, step, horizon) == [cursor] + PassClicks(cursor + step, step, horizon)
    ensures PassEnd(cursor, step, horizon) == PassEnd(cursor + step, step, horizon)
  {
  }

  /**
   * Within one pass the clicks start at the cursor and follow each other at
   * exactly one beat; the cursor ends one beat after the last click.
   */
  lemma {:induction false} PassSpacing(cursor: real, step: real, horizon: real)
    requires step >= MIN_STEP
    ensures var c := PassClicks(cursor, step, horizon);
      && (c != [] ==> c[0] == cursor && PassEnd(cursor, step, horizon) == c[|c| - 1] + step)
      && (forall i :: 0 <= i < |c| - 1 ==> c[i + 1] == c[i] + step)
    decreases ((horizon - cursor) / MIN_STEP).Floor
  {
    if cursor < horizon {
      PassSpacing(cursor + step, step, horizon);
      PassUnfold(cursor, step, horizon);
      var c := PassClicks(cursor, step, horizon);
      var rest := PassClicks(cursor + step, step, horizon);
      if rest == [] {
        PassBounds(cursor + step, step, horizon);
        assert PassEnd(cursor + step, step, horizon) == cursor + step;
      } else {
        assert c[|c| - 1] == rest[|rest| - 1];
      }
      forall i | 0 <= i < |c| - 1 ensures c[i + 1] == c[i] + step {
        if i > 0 {
          assert c[i] == rest[i - 1] && c[i + 1] == rest[i];
        }
      }
    }
  }

  /** Within one pass the clicks strictly increase. */
  lemma {:induction false} PassIncreasing(cursor: real, step: real, horizon: real)
    requires step >= MIN_STEP
    ensures var c := PassClicks(cursor, step, horizon);
      forall i, j :: 0 <= i < j < |c| ==> c[i] < c[j]
    decreases ((horizon - cursor) / MIN_STEP).Floor
  {
    if cursor < horizon {
      PassIncreasing(cursor + step, step, horizon);
      PassBounds(cursor + step, step, horizon);
      var c := PassClicks(cursor, step, horizon);
      var rest := PassClicks(cursor + step, step, horizon);
      assert c == [cursor] + rest;
      forall i, j | 0 <= i < j < |c| ensures c[i] < c[j] {
        assert c[j] == rest[j - 1];
        if i > 0 {
          assert c[i] == rest[i - 1];
        }
      }
    }
  }

  /** One beat on from the cursor, `j` more beats reach grid point `j + 1`. */
  lemma GridShift(cursor: real, step: real, j: int)
    ensures cursor + step + j as real * step == cursor + (j + 1) as real * step
  {
  }

  /**
   * A pass of n clicks leaves the cursor at `cursor + n * step`: the grid
   * does not drift.
   */
  lemma {:induction false} PassEndOnGrid(cursor: real, step: real, horizon: real)
    requires step >= MIN_STEP
    ensures PassEnd(cursor, step, horizon)
      == cursor + |PassClicks(cursor, step, horizon)| as real * step
    decreases ((horizon - cursor) / MIN_STEP).Floor
  {
    if cursor < horizon {
      PassEndOnGrid(cursor + step, step, horizon);
      PassUnfold(cursor, step, horizon);
      var n := |PassClicks(cursor + step, step, horizon)|;
      assert |PassClicks(cursor, step, horizon)| == n + 1;
      GridShift(cursor, step, n);
    }
  }

  /** The k-th click of a pass is at `cursor + k * step`. */
  lemma {:induction false} PassClickAt(cursor: real, step: real, horizon: real, k: nat)
    requires step >= MIN_STEP && k < |PassClicks(cursor, step, horizon)|
    ensures PassClicks(cursor, step, horizon)[k] == cursor + k as real * step
    decreases k
  {
    PassUnfold(cursor, step, horizon);
    if k > 0 {
      PassClickAt(cursor + step, step, horizon, k - 1);
      GridShift(cursor, step, k - 1);
    }
  }

  /** Every click of a pass lies on the grid `cursor + k * step`. */
  lemma PassGrid(cursor: real, step: real, horizon: real)
    requires step >= MIN_STEP
    ensures var c := PassClicks(cursor, step, horizon);
      forall k :: 0 <= k < |c| ==> c[k] == cursor + k as real * step
  {
    forall k | 0 <= k < |PassClicks(cursor, step, horizon)| {
      PassClickAt(cursor, step, horizon, k);
    }
  }

  /** Grid points are ordered as their indexes. */
  lemma GridOrder(step: real, a: nat, b: nat)
    requires step > 0.0
    ensures a as real * step < b as real * step ==> a < b
  {
  }

  /**
   * There is no catch-up rule: every grid beat before the horizon is booked,
   * however far in the past it lies.
   */
  lemma NoBeatSkipped(cursor: real, step: real, horizon: real, k: nat)
    requires step >= MIN_STEP
    requires cursor + k as real * step < horizon
    ensures k < |PassClicks(cursor, step, horizon)|
    ensures PassClicks(cursor, step, horizon)[k] == cursor + k as real * step
  {
    PassEndOnGrid(cursor, step, horizon);
    PassBounds(cursor, step, horizon);
    GridOrder(step, k, |PassClicks(cursor, step, horizon)|);
    PassClickAt(cursor, step, horizon, k);
  }

  /** A pass whose horizon lies within one beat of the cursor books exactly the cursor. */
  lemma OneClickPass(cursor: real, step: real, horizon: real)
    requires step >= MIN_STEP && cursor < horizon <= cursor + step
    ensures PassClicks(cursor, step, horizon) == [cursor]
    ensures PassEnd(cursor, step, horizon) == cursor + step
  {
    PassUnfold(cursor, step, horizon);
    PassBounds(cursor + step, step, horizon);
  }

  /**
   * Under a constant tempo, a pass to `h1` followed by a pass to `h2` books
   * the same clicks and leaves the same cursor as one pass to the later of
   * the two horizons.
   */
  lemma {:induction false} PassesCompose(cursor: real, step: real, h1: real, h2: real)
    requires step >= MIN_STEP
    ensures var h := if h1 <= h2 then h2 else h1;
      && PassClicks(cursor, step, h1) + PassClicks(PassEnd(cursor, step, h1), step, h2)
         == PassClicks(cursor, step, h)
      && PassEnd(PassEnd(cursor, step, h1), step, h2) == PassEnd(cursor, step, h)
    decreases ((h1 - cursor) / MIN_STEP).Floor
  {
    var h := if h1 <= h2 then h2 else h1;
    if cursor < h1 {
      PassesCompose(cursor + step, step, h1, h2);
      assert cursor < h;
      assert PassClicks(cursor, step, h1) + PassClicks(PassEnd(cursor, step, h1), step, h2)
          == [cursor] + (PassClicks(cursor + step, step, h1) + PassClicks(PassEnd(cursor + step, step, h1), step, h2));
    }
  }

  /**
   * The cursor a start resumes from: a cursor already in the past is moved to
   * `now + LEAD_IN`, any other is kept, so a quick stop and start stays on the
   * old beat grid.
   */
  function StartCursor(cursor: real, now: real): (r: real)
    ensures r >= cursor && r >= now
    ensures r == cursor || r == now + LEAD_IN
    ensures r == cursor <==> cursor >= now
  {
    if cursor < now then now + LEAD_IN else cursor
  }

  /**
   * A start books nothing before `now`: beats missed while stopped are
   * skipped, and a stale cursor puts the first click at `now + LEAD_IN`.
   */
  lemma {:induction false} RestartSkipsMissedBeats(cursor: real, step: real, now: real)
    requires step >= MIN_STEP
    ensures var c := PassClicks(StartCursor(cursor, now), step, now + SCHEDULE_AHEAD);
      && (forall i :: 0 <= i < |c| ==> now <= c[i])
      && (cursor < now ==> c != [] && c[0] == now + LEAD_IN)
  {
    PassBounds(StartCursor(cursor, now), step, now + SCHEDULE_AHEAD);
    if cursor < now {
      PassUnfold(now + LEAD_IN, step, now + SCHEDULE_AHEAD);
    }
  }

  /** The metronome component: tempo, transport and scheduler state. */
  class Transport {
    /** The tempo shown and changed by the controls. */
    var bpm: int
    /** The copy of the tempo the scheduler reads; an effect keeps it in step with `bpm`. */
    var bpmRef: int
    var isPlaying: bool
    /** Whether the audio context has been created. */
    var hasAudio: bool
    /** The schedule cursor: the time of the next beat not yet booked. */
    var cursor: real
    /** Whether a scheduler timeout is armed and not cleared. */
    var wakeupPending: bool
    /** Every click time booked on the audio clock, in booking order. */
    ghost var emitted: seq<real>

    /**
     * Tempo in range, and every two booked clicks at least MIN_STEP apart, the
     * cursor included: clicks are booked in strictly increasing time order over
     * the component's whole life, across stops and starts.
     */
    ghost predicate Valid()
      reads this
    {
      && MIN_BPM <= bpm <= MAX_BPM
      && MIN_BPM <= bpmRef <= MAX_BPM
      && (forall i, j :: 0 <= i < j < |emitted| ==> emitted[i] + MIN_STEP <= emitted[j])
      && (forall i :: 0 <= i < |emitted| ==> emitted[i] + MIN_STEP <= cursor)
    }

    /** A timeout is pending exactly while playing, and only with an audio context. */
    ghost predicate Armed()
      reads this
    {
      wakeupPending == isPlaying && (isPlaying ==> hasAudio)
    }

    constructor ()
      ensures Valid() && Armed()
      ensures bpm == INITIAL_BPM && bpmRef == INITIAL_BPM
      ensures !isPlaying && !hasAudio && !wakeupPending
      ensures cursor == 0.0 && emitted == []
    {
      bpm, bpmRef := INITIAL_BPM, INITIAL_BPM;
      isPlaying, hasAudio, wakeupPending := false, false, false;
      cursor := 0.0;
      emitted := [];
    }

    /** Advances the cursor by one beat at the tempo current at this moment. */
    method NextNote()
      requires MIN_BPM <= bpmRef <= MAX_BPM
      modifies this`cursor
      ensures cursor == old(cursor) + SecondsPerBeat(bpmRef)
    {
      var secondsPerBeat := SecondsPerBeat(bpmRef);
      cursor := cursor + secondsPerBeat;
    }

    /**
     * One scheduling pass at audio time `now`: without an audio context it does
     * nothing; otherwise it books every beat before `now + SCHEDULE_AHEAD`,
     * advances the cursor past them and arms the next timeout.
     */
    method Scheduler(now: real)
      requires Valid()
      modifies this`cursor, this`emitted, this`wakeupPending
      ensures Valid()
      ensures !hasAudio ==>
        cursor == old(cursor) && emitted == old(emitted) && wakeupPending == old(wakeupPending)
      ensures hasAudio ==>
        && emitted == old(emitted) + PassClicks(old(cursor), SecondsPerBeat(bpmRef), now + SCHEDULE_AHEAD)
        && cursor == PassEnd(old(cursor), SecondsPerBeat(bpmRef), now + SCHEDULE_AHEAD)
        && wakeupPending
      ensures hasAudio ==> cursor >= now + SCHEDULE_AHEAD
      ensures forall i :: |old(emitted)| <= i < |emitted| ==> old(cursor) <= emitted[i] < now + SCHEDULE_AHEAD
      ensures cursor >= old(cursor)
    {
      if !hasAudio {
        return;
      }
      ghost var step := SecondsPerBeat(bpmRef);
      ghost var horizon := now + SCHEDULE_AHEAD;
      while cursor < now + SCHEDULE_AHEAD
        invariant Valid()
        invariant old(emitted) + PassClicks(old(cursor), step, horizon)
               == emitted + PassClicks(cursor, step, horizon)
        invariant PassEnd(cursor, step, horizon) == PassEnd(old(cursor), step, horizon)
        decreases ((now + SCHEDULE_AHEAD - cursor) / MIN_STEP).Floor
      {
        assert PassClicks(cursor, step, horizon) == [cursor] + PassClicks(cursor + step, step, horizon);
        emitted := emitted + [cursor];
        NextNote();
      }
      wakeupPending := true;
      PassBounds(old(cursor), step, horizon);
    }

    /**
     * The armed timeout fires at audio time `now` and runs a pass; with no
     * timeout armed nothing happens, so no click is booked after a stop.
     */
    method Wake(now: real)
      requires Valid()
      modifies this`cursor, this`emitted, this`wakeupPending
      ensures Valid()
      ensures old(Armed()) ==> Armed()
      ensures !old(wakeupPending) ==>
        cursor == old(cursor) && emitted == old(emitted) && !wakeupPending
      ensures old(wakeupPending) && !hasAudio ==>
        cursor == old(cursor) && emitted == old(emitted) && !wakeupPending
      ensures old(wakeupPending) && hasAudio ==>
        && emitted == old(emitted) + PassClicks(old(cursor), SecondsPerBeat(bpmRef), now + SCHEDULE_AHEAD)
        && cursor == PassEnd(old(cursor), SecondsPerBeat(bpmRef), now + SCHEDULE_AHEAD)
        && wakeupPending
      ensures cursor >= old(cursor)
    {
      if wakeupPending {
        wakeupPending := false;
        Scheduler(now);
      }
    }

    /**
     * The play/pause button at audio time `now`. Stop clears the timeout and
     * leaves the cursor where it is. Start creates the audio context if
     * needed, moves a stale cursor to `now + LEAD_IN`, and runs one pass.
     */
    method TogglePlay(now: real)
      requires Valid()
      modifies this`isPlaying, this`hasAudio, this`cursor, this`emitted, this`wakeupPending
      ensures Valid() && Armed()
      ensures old(isPlaying) ==>
        && !isPlaying && !wakeupPending
        && cursor == old(cursor) && emitted == old(emitted) && hasAudio == old(hasAudio)
      ensures !old(isPlaying) ==>
        && isPlaying && hasAudio && wakeupPending
        && emitted == old(emitted) + PassClicks(StartCursor(old(cursor), now), SecondsPerBeat(bpmRef), now + SCHEDULE_AHEAD)
        && cursor == PassEnd(StartCursor(old(cursor), now), SecondsPerBeat(bpmRef), now + SCHEDULE_AHEAD)
      ensures !old(isPlaying) ==> forall i :: |old(emitted)| <= i < |emitted| ==> now <= emitted[i]
      ensures cursor >= old(cursor)
    {
      if isPlaying {
        wakeupPending := false;
        isPlaying := false;
      } else {
        hasAudio := true;
        if cursor < now {
          cursor := now + LEAD_IN;
        }
        isPlaying := true;
        Scheduler(now);
        RestartSkipsMissedBeats(old(cursor), SecondsPerBeat(bpmRef), now);
      }
    }

    /** The minus button. */
    method DecrementTempo()
      requires Valid()
      modifies this`bpm
      ensures Valid()
      ensures bpm == TempoDown(old(bpm))
    {
      bpm := TempoDown(bpm);
    }

    /** The plus button. */
    method IncrementTempo()
      requires Valid()
      modifies this`bpm
      ensures Valid()
      ensures bpm == TempoUp(old(bpm))
    {
      bpm := TempoUp(bpm);
    }

    /** The slider; its range attributes keep `value` within the bounds. */
    method SlideTempo(value: int)
      requires Valid()
      requires MIN_BPM <= value <= MAX_BPM
      modifies this`bpm
      ensures Valid()
      ensures bpm == value
    {
      bpm := value;
    }

    /** The effect that copies the tempo into the scheduler's reference. */
    method SyncTempoRef()
      requires Valid()
      modifies this`bpmRef
      ensures Valid()
      ensures bpmRef == bpm
    {
      bpmRef := bpm;
    }
  }

  /**
   * A session at 120 beats per minute from a fresh component: start at `now`,
   * then two timeouts half a second apart book beats at `now + 0.05`,
   * `now + 0.55` and `now + 1.05`.
   */
  method FirstBeatsAt120(now: real)
    requires now > 0.0
  {
    var m := new Transport();
    m.SlideTempo(120);
    m.SyncTempoRef();
    assert SecondsPerBeat(m.bpmRef) == 0.5;
    assert StartCursor(m.cursor, now) == now + 0.05;
    OneClickPass(now + 0.05, 0.5, now + 0.1);
    m.TogglePlay(now);
    assert m.emitted == [now + 0.05] && m.cursor == now + 0.55;
    OneClickPass(now + 0.55, 0.5, now + 0.6);
    m.Wake(now + 0.5);
    assert m.emitted == [now + 0.05, now + 0.55] && m.cursor == now + 1.05;
    OneClickPass(now + 1.05, 0.5, now + 1.1);
    m.Wake(now + 1.0);
    assert m.emitted == [now + 0.05, now + 0.55, now + 1.05];
  }
}
