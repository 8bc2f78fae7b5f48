/**
 * `TerminalImage`: every frame of a decoded image rendered once, with the
 * time it stays on screen, and its playback. Playback is modelled as the
 * trace of what it does — sleep so long, print this frame — instead of
 * sleeping and printing.
 */
module Terminal {
  import opened Wrappers
  import opened Render

  /**
   * One frame of the decoded image as the renderer receives it: its palette
   * indices, already quantized and resized to the terminal (`width` cells
   * per row), and the `duration` entry of its metadata in milliseconds, if
   * it has one.
   */
  datatype SourceFrame = SourceFrame(pixels: seq<seq<nat>>, width: nat, duration: Option<nat>)

  /** A frame the renderer accepts. */
  predicate Renderable(f: SourceFrame)
  {
    IsIndexGrid(f.pixels, f.width)
  }

  /** `image_to_str(frame)`: the printed text of a frame's rendering. */
  function FrameText(f: SourceFrame): (text: string)
    requires Renderable(f)
  {
    Spell(Rendered(f.pixels, f.width))
  }

  /** The display time of a frame without a `duration` entry, in milliseconds. */
  const DEFAULT_DURATION: nat := 200

  /** `frame.info.get("duration", 200)`, in milliseconds. */
  function Duration(f: SourceFrame): (ms: nat)
  {
    match f.duration
    case Some(ms) => ms
    case None => DEFAULT_DURATION
  }

  /** One step of playback: `sleep(ms)`, or `print(f"\n\n{frame}")`. */
  datatype Event = Sleep(ms: nat) | Print(frame: string)

  // ---------------------------------------------------------------------
  // Traces
  // ---------------------------------------------------------------------

  /** The first n steps of one pass over the played frames: sleep, then print, per frame. */
  function Pass(played: seq<string>, durations: seq<nat>, n: nat): (t: seq<Event>)
    requires n <= |played| <= |durations|
  {
    if n == 0 then []
    else Pass(played, durations, n - 1) + [Sleep(durations[n - 1]), Print(played[n - 1])]
  }

  /** s, n times over. */
  function Repeated<T>(s: seq<T>, n: nat): (r: seq<T>)
  {
    if n == 0 then [] else Repeated(s, n - 1) + s
  }

  /** The frames a trace prints, in order. */
  function Printed(trace: seq<Event>): (frames: seq<string>)
  {
    if trace == [] then [] else PrintedBy(trace[0]) + Printed(trace[1..])
  }

  /** The sleeps a trace takes, in order. */
  function Slept(trace: seq<Event>): (sleeps: seq<nat>)
  {
    if trace == [] then [] else SleptBy(trace[0]) + Slept(trace[1..])
  }

  function PrintedBy(e: Event): (frames: seq<string>)
  {
    if e.Print? then [e.frame] else []
  }

  function SleptBy(e: Event): (sleeps: seq<nat>)
  {
    if e.Sleep? then [e.ms] else []
  }

  lemma {:induction false} PrintedAppend(a: seq<Event>, b: seq<Event>)
    ensures Printed(a + b) == Printed(a) + Printed(b)
    ensures Slept(a + b) == Slept(a) + Slept(b)
  {
    PrintsAppend(a, b);
    SleepsAppend(a, b);
  }

  lemma {:induction false} PrintsAppend(a: seq<Event>, b: seq<Event>)
    ensures Printed(a + b) == Printed(a) + Printed(b)
  {
    if a == [] {
      assert a + b == b;
    } else {
      var t := a + b;
      assert t[0] == a[0] && t[1..] == a[1..] + b;
      PrintsAppend(a[1..], b);
      var h := PrintedBy(a[0]);
      assert Printed(t) == h + (Printed(a[1..]) + Printed(b));
      assert Printed(a) == h + Printed(a[1..]);
      assert h + (Printed(a[1..]) + Printed(b)) == (h + Printed(a[1..])) + Printed(b);
    }
  }

  lemma {:induction false} SleepsAppend(a: seq<Event>, b: seq<Event>)
    ensures Slept(a + b) == Slept(a) + Slept(b)
  {
    if a == [] {
      assert a + b == b;
    } else {
      var t := a + b;
      assert t[0] == a[0] && t[1..] == a[1..] + b;
      SleepsAppend(a[1..], b);
      var h := SleptBy(a[0]);
      assert Slept(t) == h + (Slept(a[1..]) + Slept(b));
      assert Slept(a) == h + Slept(a[1..]);
      assert h + (Slept(a[1..]) + Slept(b)) == (h + Slept(a[1..])) + Slept(b);
    }
  }

  lemma {:induction false} RepeatedLength<T>(s: seq<T>, n: nat)
    ensures |Repeated(s, n)| == n * |s|
  {
    if n > 0 {
      RepeatedLength(s, n - 1);
      assert n * |s| == (n - 1) * |s| + |s|;
    }
  }

  /**
   * One pass over the played frames: for each frame in order a sleep of
   * its own duration, then its print, and nothing else.
   */
  lemma {:induction false} PassEvents(played: seq<string>, durations: seq<nat>, n: nat)
    requires n <= |played| <= |durations|
    ensures |Pass(played, durations, n)| == 2 * n
    ensures forall i :: 0 <= i < n ==>
      Pass(played, durations, n)[2 * i] == Sleep(durations[i]) &&
      Pass(played, durations, n)[2 * i + 1] == Print(played[i])
  {
    if n > 0 {
      PassEvents(played, durations, n - 1);
    }
  }

  /** One pass prints the played frames in order and sleeps their durations in order. */
  lemma PassPrints(played: seq<string>, durations: seq<nat>, n: nat)
    requires n <= |played| <= |durations|
    ensures Printed(Pass(played, durations, n)) == played[..n]
    ensures Slept(Pass(played, durations, n)) == durations[..n]
  {
    PassPrintsFrames(played, durations, n);
    PassSleepsDurations(played, durations, n);
  }

  lemma {:induction false} PassPrintsFrames(played: seq<string>, durations: seq<nat>, n: nat)
    requires n <= |played| <= |durations|
    ensures Printed(Pass(played, durations, n)) == played[..n]
  {
    if n > 0 {
      var before := Pass(played, durations, n - 1);
      assert Printed(Pass(played, durations, n)) == Printed(before) + [played[n - 1]] by {
        var step := [Sleep(durations[n - 1]), Print(played[n - 1])];
        assert Pass(played, durations, n) == before + step;
        PrintsAppend(before, step);
        StepPrints(durations[n - 1], played[n - 1]);
      }
      PassPrintsFrames(played, durations, n - 1);
      SlicePush(played, n);
    }
  }

  lemma {:induction false} PassSleepsDurations(played: seq<string>, durations: seq<nat>, n: nat)
    requires n <= |played| <= |durations|
    ensures Slept(Pass(played, durations, n)) == durations[..n]
  {
    if n > 0 {
      var before := Pass(played, durations, n - 1);
      assert Slept(Pass(played, durations, n)) == Slept(before) + [durations[n - 1]] by {
        var step := [Sleep(durations[n - 1]), Print(played[n - 1])];
        assert Pass(played, durations, n) == before + step;
        SleepsAppend(before, step);
        StepPrints(durations[n - 1], played[n - 1]);
      }
      PassSleepsDurations(played, durations, n - 1);
      SlicePush(durations, n);
    }
  }

  lemma StepPrints(ms: nat, frame: string)
    ensures Printed([Sleep(ms), Print(frame)]) == [frame]
    ensures Slept([Sleep(ms), Print(frame)]) == [ms]
  {
    var step := [Sleep(ms), Print(frame)];
    assert step[1..] == [Print(frame)] && step[1..][1..] == [];
    assert Printed(step[1..]) == [frame] + Printed([]);
    assert Slept(step[1..]) == [] + Slept([]);
    assert Printed(step) == [] + Printed(step[1..]);
    assert Slept(step) == [ms] + Slept(step[1..]);
  }

  /** `[f(s[0]), …, f(s[n - 1])]`, built one element at a time. */
  ghost function MapUpTo<A, B>(f: A --> B, s: seq<A>, n: nat): seq<B>
    requires n <= |s| && forall i :: 0 <= i < |s| ==> f.requires(s[i])
  {
    if n == 0 then [] else MapUpTo(f, s, n - 1) + [f(s[n - 1])]
  }

  lemma {:induction false} MapUpToAt<A, B>(f: A --> B, s: seq<A>, n: nat)
    requires n <= |s| && forall i :: 0 <= i < |s| ==> f.requires(s[i])
    ensures |MapUpTo(f, s, n)| == n
    ensures forall k :: 0 <= k < n ==> MapUpTo(f, s, n)[k] == f(s[k])
  {
    if n > 0 {
      MapUpToAt(f, s, n - 1);
    }
  }

  /** Printing and sleeping commute with repetition. */
  lemma {:induction false} RepeatedTrace(t: seq<Event>, n: nat)
    ensures Printed(Repeated(t, n)) == Repeated(Printed(t), n)
    ensures Slept(Repeated(t, n)) == Repeated(Slept(t), n)
  {
    if n > 0 {
      RepeatedTrace(t, n - 1);
      PrintedAppend(Repeated(t, n - 1), t);
    }
  }

  /**
   * Playing `passes` times over `played`: exactly `passes * |played|`
   * prints, the frames in their order, pass after pass, each print after
   * a sleep of that frame's duration.
   */
  lemma PlaybackPrints(played: seq<string>, durations: seq<nat>, passes: nat)
    requires |played| <= |durations|
    ensures Printed(Repeated(Pass(played, durations, |played|), passes)) == Repeated(played, passes)
    ensures |Printed(Repeated(Pass(played, durations, |played|), passes))| == passes * |played|
    ensures Slept(Repeated(Pass(played, durations, |played|), passes)) == Repeated(durations[..|played|], passes)
  {
    var pass := Pass(played, durations, |played|);
    PassPrints(played, durations, |played|);
    RepeatedTrace(pass, passes);
    assert played[..|played|] == played;
    RepeatedLength(played, passes);
  }

  /**
   * A still (not animated) showing prints the first frame only, once per
   * repetition, whatever the other frames are.
   */
  lemma StillShowsFirstFrame(first: string, durations: seq<nat>, passes: nat)
    requires |durations| >= 1
    ensures |Printed(Repeated(Pass([first], durations, 1), passes))| == passes
    ensures forall s :: s in Printed(Repeated(Pass([first], durations, 1), passes)) ==> s == first
  {
    PlaybackPrints([first], durations, passes);
    OnlyRepeated(first, passes);
  }

  lemma {:induction false} OnlyRepeated<T>(x: T, n: nat)
    ensures forall y :: y in Repeated([x], n) ==> y == x
  {
    if n > 0 {
      OnlyRepeated(x, n - 1);
    }
  }

  /** Total length of the frames: `sum(len(frame) for frame in frames)`. */
  function SumLengths(frames: seq<string>): (n: nat)
    ensures forall i :: 0 <= i < |frames| ==> |frames[i]| <= n
  {
    if frames == [] then 0 else |frames[0]| + SumLengths(frames[1..])
  }

  /** The sum of the frame lengths is the length of all frames written one after the other. */
  lemma {:induction false} SumLengthsConcat(frames: seq<string>)
    ensures SumLengths(frames) == |Concat(frames)|
  {
    if frames != [] {
      SumLengthsConcat(frames[1..]);
    }
  }

  // ---------------------------------------------------------------------
  // The class
  // ---------------------------------------------------------------------

  /**
   * The loop of the `TerminalImage` constructor: render each frame of the
   * source in order and record its duration.
   */
  method RenderFrames(source: seq<SourceFrame>) returns (frames: seq<string>, durations: seq<nat>)
    requires forall i :: 0 <= i < |source| ==> Renderable(source[i])
    ensures |frames| == |durations| == |source|
    ensures forall i :: 0 <= i < |source| ==>
      frames[i] == FrameText(source[i]) && durations[i] == Duration(source[i])
  {
    frames, durations := [], [];
    var i := 0;
    while i < |source|
      invariant 0 <= i <= |source|
      invariant frames == MapUpTo(FrameText, source, i) && durations == MapUpTo(Duration, source, i)
    {
      var text := ImageToText(source[i].pixels, source[i].width);
      durations := durations + [Duration(source[i])];
      frames := frames + [Spell(text)];
      i := i + 1;
    }
    MapUpToAt(FrameText, source, |source|);
    MapUpToAt(Duration, source, |source|);
  }

  class TerminalImage {
    /** The rendered text of each frame, in source order. */
    var frames: seq<string>
    /** How long each frame stays on screen, in milliseconds; parallel to `frames`. */
    var durations: seq<nat>

    ghost predicate Valid()
      reads this
    {
      |frames| == |durations| && |frames| >= 1
    }

    /**
     * `TerminalImage(image)`: render every frame of the image in order and
     * record its duration.
     */
    constructor (source: seq<SourceFrame>)
      requires |source| >= 1
      requires forall i :: 0 <= i < |source| ==> Renderable(source[i])
      ensures Valid()
      ensures Length() == |source|
      ensures forall i :: 0 <= i < |source| ==>
        frames[i] == FrameText(source[i]) && durations[i] == Duration(source[i])
      ensures Str() == FrameText(source[0])
    {
      var rendered, times := RenderFrames(source);
      frames, durations := rendered, times;
    }

    /** `chars`: the number of characters of all frames together. */
    function Chars(): (n: nat)
      reads this
      ensures n == |Concat(frames)|
      ensures forall i :: 0 <= i < |frames| ==> |frames[i]| <= n
    {
      SumLengthsConcat(frames);
      SumLengths(frames)
    }

    /** `len(image)`: one frame per duration, and never zero. */
    function Length(): (n: nat)
      reads this
      ensures Valid() ==> n == |durations| && n >= 1
    {
      |frames|
    }

    /** `str(image)`: the first frame. */
    function Str(): (s: string)
      reads this
      requires |frames| >= 1
    {
      frames[0]
    }

    /** The frames `show` plays: all of them when animated, else the first alone. */
    function Played(animated: bool): (p: seq<string>)
      reads this
      requires |frames| >= 1
      ensures |p| == (if animated then |frames| else 1) && p[0] == Str()
      ensures forall i :: 0 <= i < |p| ==> p[i] == frames[i]
    {
      if animated then frames else [frames[0]]
    }

    /**
     * `show(animated, repeat)` for `repeat >= 0`: `repeat + 1` passes over
     * the played frames, each frame printed after a sleep of the duration
     * at its position in the played list.
     */
    method Show(animated: bool := false, repeat: int := 0) returns (trace: seq<Event>)
      requires Valid() && repeat >= 0
      ensures trace == Repeated(Pass(Played(animated), durations, |Played(animated)|), repeat + 1)
      ensures Printed(trace) == Repeated(Played(animated), repeat + 1)
      ensures Slept(trace) == Repeated(durations[..|Played(animated)|], repeat + 1)
      ensures |Printed(trace)| == (repeat + 1) * (if animated then Length() else 1)
      ensures !animated ==> forall s :: s in Printed(trace) ==> s == Str()
    {
      var played := if animated then frames else [frames[0]];
      ghost var pass := Pass(played, durations, |played|);
      trace := [];
      var rep := 0;
      while rep < repeat + 1
        invariant 0 <= rep <= repeat + 1
        invariant trace == Repeated(pass, rep)
      {
        var i := 0;
        while i < |played|
          invariant 0 <= i <= |played|
          invariant trace == Repeated(pass, rep) + Pass(played, durations, i)
        {
          trace := trace + [Sleep(durations[i]), Print(played[i])];
          i := i + 1;
        }
        rep := rep + 1;
      }
      PlaybackPrints(played, durations, repeat + 1);
      if !animated {
        StillShowsFirstFrame(frames[0], durations, repeat + 1);
      }
    }
  }
}
