/**
 * The crossfading clip scheduler: an `XFadeRandomizer` owns two
 * `Channel`s and, on each `scheduleNextClip`, picks a clip, starts it
 * `overlap` seconds before the last busy channel ends (or now, if that is
 * later), and hands it to the first available channel.  A channel's
 * `ended` listener frees it and asks the mixer for the next clip.
 *
 * The Web Audio graph (gain nodes, buffer sources, the gain envelope) is
 * left out; the audio clock `currentTime` and the `Math.random` draw are
 * parameters.
 */
module XFade {
  import opened Wrappers

  /** A decoded clip; only its length in seconds matters here. */
  datatype Clip = Clip(id: nat, duration: real)

  /** A snapshot of a channel's fields. */
  datatype ChannelState = ChannelState(available: bool, playing: bool, start: real, clip: Option<Clip>)

  /** A freshly constructed channel. */
  const Idle: ChannelState := ChannelState(true, false, 0.0, None)

  /** The state `scheduleClip(clip, start)` leaves a channel in. */
  function Busy(clip: Clip, start: real): ChannelState {
    ChannelState(false, true, start, Some(clip))
  }

  /** The state the `ended` listener leaves a channel in, before it asks for the next clip. */
  function Released(c: ChannelState): ChannelState {
    c.(playing := false, available := true)
  }

  /** A channel plays exactly while it is taken, and a taken channel holds a clip. */
  predicate Consistent(c: ChannelState) {
    c.playing == !c.available && (!c.available ==> c.clip.Some?)
  }

  /** `endTime`: when the clip on a taken channel ends; 0 for an available one. */
  function End(c: ChannelState): (e: real)
    requires Consistent(c)
    ensures c.available ==> e == 0.0
    ensures !c.available ==> e - c.start == c.clip.value.duration
  {
    if !c.available then c.start + c.clip.value.duration else 0.0
  }

  /**
   * `next_start_time` after the loop of `scheduleNextClip` has looked at
   * `states`: starting from `now`, raised to `endTime - overlap` of each
   * taken channel that ends later than that.
   */
  function NextStart(now: real, overlap: real, states: seq<ChannelState>): (t: real)
    requires forall i | 0 <= i < |states| :: Consistent(states[i])
    ensures (forall i | 0 <= i < |states| :: states[i].available) ==> t == now
    ensures t == now || exists i | 0 <= i < |states| :: !states[i].available && t == End(states[i]) - overlap
  {
    if |states| == 0 then now
    else
      var start := NextStart(now, overlap, states[..|states| - 1]);
      var c := states[|states| - 1];
      if !c.available && End(c) - overlap > start then End(c) - overlap else start
  }

  /** `getAvailableChannel`: the index of the first available channel, if any. */
  function FirstAvailable(states: seq<ChannelState>): (r: Option<nat>)
    ensures r.Some? ==> (r.value < |states| && states[r.value].available
      && forall j | 0 <= j < r.value :: !states[j].available)
    ensures r.None? ==> forall j | 0 <= j < |states| :: !states[j].available
  {
    if |states| == 0 then None
    else if states[0].available then Some(0)
    else match FirstAvailable(states[1..])
      case None => None
      case Some(k) => Some(k + 1)
  }

  /**
   * One `scheduleNextClip` on channels in `states`: `None` (no change,
   * `false`) when none is available, else the first available one takes
   * `clip` at `NextStart`.
   */
  function Next(states: seq<ChannelState>, now: real, overlap: real, clip: Clip): (r: Option<seq<ChannelState>>)
    requires forall i | 0 <= i < |states| :: Consistent(states[i])
    ensures r.None? <==> forall j | 0 <= j < |states| :: !states[j].available
    ensures r.Some? ==> var k := FirstAvailable(states).value;
      && |r.value| == |states| && states[k].available
      && r.value[k] == Busy(clip, NextStart(now, overlap, states))
      && forall j | 0 <= j < |states| && j != k :: r.value[j] == states[j]
  {
    match FirstAvailable(states)
    case None => None
    case Some(k) => Some(states[k := Busy(clip, NextStart(now, overlap, states))])
  }

  /** `Math.max(a, b)`. */
  function Max(a: real, b: real): real {
    if a >= b then a else b
  }

  /**
   * The channels of a fresh mixer after `n` successful calls of
   * `scheduleNextClip` at time `now`, each picking `clip`.
   */
  function Stage(clip: Clip, now: real, overlap: real, n: nat): seq<ChannelState>
    requires n <= 2
  {
    if n == 0 then [Idle, Idle]
    else if n == 1 then [Busy(clip, now), Idle]
    else [Busy(clip, now), Busy(clip, Max(now, now + clip.duration - overlap))]
  }

  class Channel {
    /** The mixer whose `scheduleNextClip` the `ended` listener calls. */
    const mixer: XFadeRandomizer
    /** `start_time`. */
    var startTime: real
    /** `clip`; `None` is `null`. */
    var clip: Option<Clip>
    var playing: bool
    var available: bool

    function State(): ChannelState
      reads this
    {
      ChannelState(available, playing, startTime, clip)
    }

    predicate Valid()
      reads this
    {
      Consistent(State())
    }

    /** `new Channel(mixer)`: available, silent, no clip. */
    constructor (mixer: XFadeRandomizer)
      ensures this.mixer == mixer && State() == Idle && Valid()
    {
      this.mixer := mixer;
      startTime := 0.0;
      clip := None;
      playing := false;
      available := true;
    }

    /** The `endTime` getter. */
    function EndTime(): (e: real)
      reads this
      requires Valid()
      ensures available ==> e == 0.0
      ensures !available ==> e == startTime + clip.value.duration
    {
      End(State())
    }

    /** `scheduleClip(clip, start_time)`: the channel is taken and plays `clip` from `start`. */
    method ScheduleClip(clip: Clip, start: real)
      modifies this`clip, this`startTime, this`available, this`playing
      ensures State() == Busy(clip, start) && Valid()
    {
      this.clip := Some(clip);
      startTime := start;
      available := false;
      playing := true;
    }

    /**
     * The `ended` listener: the channel is freed and the mixer schedules
     * the next clip, which always succeeds since this channel is free.
     */
    method Ended(now: real, r: real) returns (ok: bool)
      requires mixer.Valid() && this in mixer.channels && |mixer.playlist| > 0 && 0.0 <= r < 1.0
      modifies mixer.channels
      ensures mixer.Valid() && ok
      ensures var before := old(mixer.States());
        var k := mixer.IndexOf(this);
        Next(before[k := Released(before[k])], now, mixer.overlap, mixer.playlist[0]) == Some(mixer.States())
    {
      ghost var k := mixer.IndexOf(this);
      ghost var before := mixer.States();
      playing := false;
      available := true;
      assert mixer.States() == before[k := Released(before[k])];
      ReleasedChannelIsReused(before, k, now, mixer.overlap, mixer.playlist[0]);
      ok := mixer.ScheduleNextClip(now, r);
    }
  }

  class XFadeRandomizer {
    const overlap: real
    /** The clips, in key order. */
    const playlist: seq<Clip>
    var channels: seq<Channel>

    /** Two distinct channels of this mixer, each consistent. */
    ghost predicate Valid()
      reads this, channels
    {
      |channels| == 2 && channels[0] != channels[1]
      && forall i | 0 <= i < 2 :: channels[i].mixer == this && channels[i].Valid()
    }

    function States(): (s: seq<ChannelState>)
      reads this, channels
      requires |channels| == 2
      ensures |s| == 2
    {
      [channels[0].State(), channels[1].State()]
    }

    /** Where `c` sits among the channels. */
    ghost function IndexOf(c: Channel): (k: nat)
      reads this
      requires |channels| == 2 && c in channels
      ensures k < |channels| && channels[k] == c
    {
      if channels[0] == c then 0 else 1
    }

    /** `new XFadeRandomizer(context, playlist, overlap)`: two fresh, available channels. */
    constructor (playlist: seq<Clip>, overlap: real)
      ensures Valid() && this.playlist == playlist && this.overlap == overlap
      ensures fresh(channels[0]) && fresh(channels[1])
      ensures States() == [Idle, Idle]
    {
      this.overlap := overlap;
      this.playlist := playlist;
      channels := [];
      new;
      var c0 := new Channel(this);
      var c1 := new Channel(this);
      channels := [c0, c1];
    }

    /**
     * `getRandomClip`: `Math.random` ignores its argument, and the floor
     * of a draw in [0, 1) is 0, so the clip under the first key is
     * returned whatever the draw.
     */
    method GetRandomClip(r: real) returns (c: Clip)
      requires |playlist| > 0 && 0.0 <= r < 1.0
      ensures c == playlist[0]
    {
      var idx := r.Floor;
      c := playlist[idx];
    }

    /** `getAvailableChannel`: the first available channel, or `null`. */
    method GetAvailableChannel() returns (ch: Channel?)
      requires Valid()
      ensures FirstAvailable(States()).None? <==> ch == null
      ensures FirstAvailable(States()).Some? ==> ch == channels[FirstAvailable(States()).value]
    {
      for i := 0 to |channels|
        invariant forall j | 0 <= j < i :: !channels[j].available
      {
        if channels[i].available {
          return channels[i];
        }
      }
      return null;
    }

    /**
     * `scheduleNextClip`: picks a clip, computes the start time over the
     * taken channels, and hands the clip to the first available channel;
     * `false`, with nothing changed, when none is available.
     */
    method ScheduleNextClip(now: real, r: real) returns (ok: bool)
      requires Valid() && |playlist| > 0 && 0.0 <= r < 1.0
      modifies channels
      ensures Valid()
      ensures Next(old(States()), now, overlap, playlist[0]) == if ok then Some(States()) else None
      ensures !ok ==> States() == old(States())
    {
      var nextClip := GetRandomClip(r);
      var start := now;
      for i := 0 to |channels|
        invariant start == NextStart(now, overlap, States()[..i])
      {
        assert States()[..i + 1][..i] == States()[..i];
        if !channels[i].available {
          var end := channels[i].EndTime();
          if end - overlap > start {
            start := end - overlap;
          }
        }
      }
      assert States()[..|channels|] == States();
      ghost var before := States();
      var ch := GetAvailableChannel();
      if ch == null {
        return false;
      }
      ghost var k := FirstAvailable(before).value;
      ch.ScheduleClip(nextClip, start);
      assert States() == before[k := Busy(nextClip, start)];
      ok := true;
    }
  }

  /**
   * `schedulePlayback`: a fresh mixer with a 2 second overlap, and
   * `scheduleNextClip` called until it fails.  Exactly two clips are
   * scheduled: the first now, the second `overlap` before the first ends
   * (or now, for a clip shorter than the overlap).
   */
  method SchedulePlayback(playlist: seq<Clip>, now: real, r: real) returns (xfade: XFadeRandomizer, scheduled: nat)
    requires |playlist| > 0 && 0.0 <= r < 1.0
    ensures fresh(xfade) && xfade.Valid()
    ensures scheduled == 2 && xfade.States() == Stage(playlist[0], now, 2.0, 2)
  {
    xfade := new XFadeRandomizer(playlist, 2.0);
    scheduled := 0;
    while true
      invariant xfade.Valid() && fresh(xfade.channels[0]) && fresh(xfade.channels[1])
      invariant xfade.playlist == playlist && xfade.overlap == 2.0
      invariant scheduled <= 2 && xfade.States() == Stage(playlist[0], now, 2.0, scheduled)
      decreases 2 - scheduled
    {
      StagesFollowNext(playlist[0], now, 2.0, scheduled);
      var ok := xfade.ScheduleNextClip(now, r);
      if !ok {
        break;
      }
      scheduled := scheduled + 1;
    }
  }

  // ---------------------------------------------------------------------
  // Properties
  // ---------------------------------------------------------------------

  /**
   * The start time is not before `now`, and not before `overlap` ahead of
   * the end of any taken channel: a new clip fades in while the last one
   * fades out, and never starts in the past.
   */
  lemma {:induction false} NextStartBounds(now: real, overlap: real, states: seq<ChannelState>)
    requires forall i | 0 <= i < |states| :: Consistent(states[i])
    ensures NextStart(now, overlap, states) >= now
    ensures forall i | 0 <= i < |states| && !states[i].available :: NextStart(now, overlap, states) >= End(states[i]) - overlap
  {
    if |states| > 0 {
      var init := states[..|states| - 1];
      NextStartBounds(now, overlap, init);
      assert forall i | 0 <= i < |init| :: init[i] == states[i];
    }
  }

  /**
   * No later than it must be: any time `b` that satisfies both bounds of
   * `NextStartBounds` is not before the start time.
   */
  lemma {:induction false} NextStartIsLeast(now: real, overlap: real, states: seq<ChannelState>, b: real)
    requires forall i | 0 <= i < |states| :: Consistent(states[i])
    requires b >= now && forall i | 0 <= i < |states| && !states[i].available :: b >= End(states[i]) - overlap
    ensures NextStart(now, overlap, states) <= b
  {
    if |states| > 0 {
      var init := states[..|states| - 1];
      assert forall i | 0 <= i < |init| :: init[i] == states[i];
      NextStartIsLeast(now, overlap, init, b);
    }
  }

  /** A channel freed by its `ended` listener gets the next clip, unless an earlier channel is free too. */
  lemma ReleasedChannelIsReused(states: seq<ChannelState>, k: nat, now: real, overlap: real, clip: Clip)
    requires k < |states| && forall i | 0 <= i < |states| :: Consistent(states[i])
    ensures var freed := states[k := Released(states[k])];
      (forall i | 0 <= i < |freed| :: Consistent(freed[i]))
      && FirstAvailable(freed).Some? && FirstAvailable(freed).value <= k
      && Next(freed, now, overlap, clip).Some?
  {
    var freed := states[k := Released(states[k])];
    assert freed[k].available;
  }

  /**
   * From a fresh mixer, `scheduleNextClip` fills channel 0 and then
   * channel 1 and then fails: the playback loop stops after two clips.
   */
  lemma StagesFollowNext(clip: Clip, now: real, overlap: real, n: nat)
    requires n <= 2
    ensures n < 2 ==> Next(Stage(clip, now, overlap, n), now, overlap, clip) == Some(Stage(clip, now, overlap, n + 1))
    ensures n == 2 ==> Next(Stage(clip, now, overlap, n), now, overlap, clip).None?
  {
    if n == 0 {
      var s := Stage(clip, now, overlap, 0);
      assert s[..1][..0] == [];
      assert NextStart(now, overlap, s) == NextStart(now, overlap, s[..1]) == now;
      assert s[0 := Busy(clip, now)] == [Busy(clip, now), Idle];
    } else if n == 1 {
      var s := Stage(clip, now, overlap, 1);
      assert FirstAvailable(s) == Some(1);
      assert s[..1][..0] == [];
      assert NextStart(now, overlap, s) == NextStart(now, overlap, s[..1]);
      var later := Busy(clip, Max(now, now + clip.duration - overlap));
      assert NextStart(now, overlap, s[..1]) == later.start;
      assert s[1 := later] == [s[0], later];
    }
  }

  /** Every consistent channel stays consistent under `Next`, and the channels keep their number. */
  lemma NextKeepsConsistent(states: seq<ChannelState>, now: real, overlap: real, clip: Clip)
    requires forall i | 0 <= i < |states| :: Consistent(states[i])
    ensures Next(states, now, overlap, clip).Some? ==> var s := Next(states, now, overlap, clip).value;
      |s| == |states| && forall i | 0 <= i < |s| :: Consistent(s[i])
  {
  }
}
