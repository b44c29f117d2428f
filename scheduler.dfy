/** The segment scheduler (`Decoder::run`) and the concatenation of segment
    texts into the transcript (`transcribe`). */
module Scheduler {
  import opened Floats
  import opened Interfaces
  import opened DecodeAttempt
  import opened Fallback

  /** A decoded window: where it starts and how long it lasts, in seconds. */
  datatype Segment = Segment(start: real, duration: real, dr: DecodingResult)

  /** A range of mel frames. */
  datatype Window = Window(start: nat, size: nat)

  /** `(frames * HOP_LENGTH) as f64 / SAMPLE_RATE as f64`, as an exact real. */
  function FrameSeconds(frames: nat): real {
    (frames * HopLength) as real / SampleRate as real
  }

  /** `usize::min(content_frames - seek, N_FRAMES)`. */
  function WindowSize(contentFrames: nat, seek: nat): (size: nat)
    requires seek < contentFrames
    ensures 1 <= size <= NFrames && seek + size <= contentFrames
    ensures size == NFrames || seek + size == contentFrames
  {
    if contentFrames - seek < NFrames then contentFrames - seek else NFrames
  }

  /** The silence verdict: probably no speech and a poor average log-probability. */
  predicate Silent(dr: DecodingResult) {
    Gt(dr.noSpeechProb, NoSpeechThreshold) && Lt(dr.avgLogprob, LogprobThreshold)
  }

  /** How the scheduler decodes one window: the temperature ladder of a
      decoder, from the generator's state to the attempt it returns. */
  type Ladder = (seq<Frame>, Rng) -> Attempt

  /** `Decoder::decode_with_fallback` of the decoder `d`. */
  function LadderOf(d: ReadyDecoding): Ladder {
    (segment, rng) => DecodeWithFallback(d, segment, rng)
  }

  lemma LadderOfDecoder(d: ReadyDecoding, segment: seq<Frame>, rng: Rng)
    ensures LadderOf(d)(segment, rng) == DecodeWithFallback(d, segment, rng)
  {
  }

  datatype RunOutcome = RunOutcome(result: Result<seq<Segment>>, rng: Rng)

  /** `segments` followed by what the rest of the run yields. */
  function Prepend(segments: seq<Segment>, o: RunOutcome): RunOutcome {
    if o.result.Ok? then RunOutcome(Ok(segments + o.result.value), o.rng) else o
  }

  /** The `while seek < content_frames` loop from cursor `seek` on: decode the
      window at the cursor through the ladder, abort on its error, advance
      the cursor by the whole window, and keep the window unless it is silent. */
  function RunFrom(ladder: Ladder, mel: seq<Frame>, seek: nat, rng: Rng): RunOutcome
    decreases |mel| - seek
  {
    if seek >= |mel| then RunOutcome(Ok([]), rng)
    else
      var size := WindowSize(|mel|, seek);
      var a := ladder(mel[seek..seek + size], rng);
      match a.result
      case Err(e) => RunOutcome(Err(e), a.rng)
      case Ok(dr) =>
        var rest := RunFrom(ladder, mel, seek + size, a.rng);
        if Silent(dr) then rest
        else Prepend([Segment(FrameSeconds(seek), FrameSeconds(size), dr)], rest)
  }

  /** One turn of the loop, for a cursor inside the input. */
  lemma RunFromStep(ladder: Ladder, mel: seq<Frame>, seek: nat, rng: Rng)
    requires seek < |mel|
    ensures var size := WindowSize(|mel|, seek);
      var a := ladder(mel[seek..seek + size], rng);
      RunFrom(ladder, mel, seek, rng) ==
        if a.result.Err? then RunOutcome(Err(a.result.error), a.rng)
        else if Silent(a.result.value) then RunFrom(ladder, mel, seek + size, a.rng)
        else Prepend([Segment(FrameSeconds(seek), FrameSeconds(size), a.result.value)],
                     RunFrom(ladder, mel, seek + size, a.rng))
  {
  }

  /** `Decoder::run(mel)`: the cursor starts at frame 0. */
  function Run(d: ReadyDecoding, mel: seq<Frame>, rng: Rng): RunOutcome
  {
    RunFrom(LadderOf(d), mel, 0, rng)
  }

  /** The windows the cursor visits from `seek` on. */
  function WindowsFrom(contentFrames: nat, seek: nat): seq<Window>
    decreases contentFrames - seek
  {
    if seek >= contentFrames then []
    else
      var size := WindowSize(contentFrames, seek);
      [Window(seek, size)] + WindowsFrom(contentFrames, seek + size)
  }

  /** The windows partition `[seek, content_frames)`: the first starts at
      `seek`, each starts where the previous one ended, the last ends at
      `content_frames`, every window but the last is `N_FRAMES` long, none
      is empty, and there are `ceil((content_frames - seek) / N_FRAMES)` of them. */
  lemma {:induction false} WindowsPartition(contentFrames: nat, seek: nat)
    requires seek <= contentFrames
    ensures var ws := WindowsFrom(contentFrames, seek);
      |ws| == (contentFrames - seek + NFrames - 1) / NFrames &&
      (ws != [] ==> ws[0].start == seek && ws[|ws| - 1].start + ws[|ws| - 1].size == contentFrames) &&
      (forall k | 0 <= k < |ws| :: 1 <= ws[k].size <= NFrames) &&
      (forall k | 0 <= k < |ws| - 1 :: ws[k].size == NFrames && ws[k + 1].start == ws[k].start + ws[k].size)
    decreases contentFrames - seek
  {
    if seek < contentFrames {
      var size := WindowSize(contentFrames, seek);
      WindowsPartition(contentFrames, seek + size);
      var ws := WindowsFrom(contentFrames, seek);
      var rest := WindowsFrom(contentFrames, seek + size);
      assert ws == [Window(seek, size)] + rest;
      var n := contentFrames - seek;
      if n <= NFrames {
        assert rest == [];
        assert (n + NFrames - 1) / NFrames == 1;
      } else {
        assert size == NFrames;
        assert (n + NFrames - 1) / NFrames == 1 + (n - NFrames + NFrames - 1) / NFrames;
        assert rest != [] && rest[0].start == seek + size;
      }
    }
  }

  /** One ladder outcome per window, in cursor order. */
  datatype Decoded = Decoded(window: Window, attempt: Attempt)

  /** The ladder outcome of each window from `seek` on, up to and including
      the first window whose ladder fails. */
  function Attempts(ladder: Ladder, mel: seq<Frame>, seek: nat, rng: Rng): seq<Decoded>
    decreases |mel| - seek
  {
    if seek >= |mel| then []
    else
      var w := Window(seek, WindowSize(|mel|, seek));
      var a := ladder(mel[w.start..w.start + w.size], rng);
      [Decoded(w, a)] + if a.result.Err? then [] else Attempts(ladder, mel, seek + w.size, a.rng)
  }

  /** The segments of the windows whose ladder succeeded and that are not silent. */
  function Kept(ds: seq<Decoded>): seq<Segment> {
    if ds == [] then []
    else
      var a := ds[0].attempt;
      var w := ds[0].window;
      (if a.result.Ok? && !Silent(a.result.value)
       then [Segment(FrameSeconds(w.start), FrameSeconds(w.size), a.result.value)] else []) +
      Kept(ds[1..])
  }

  /** The ladder is run on the windows of the partition, in order. */
  lemma {:induction false} AttemptsAreWindows(ladder: Ladder, mel: seq<Frame>, seek: nat, rng: Rng)
    requires seek <= |mel|
    ensures var ds := Attempts(ladder, mel, seek, rng);
      var ws := WindowsFrom(|mel|, seek);
      |ds| <= |ws| && forall k | 0 <= k < |ds| :: ds[k].window == ws[k]
    decreases |mel| - seek
  {
    if seek < |mel| {
      var size := WindowSize(|mel|, seek);
      var a := ladder(mel[seek..seek + size], rng);
      var ds := Attempts(ladder, mel, seek, rng);
      var ws := WindowsFrom(|mel|, seek);
      assert ws == [Window(seek, size)] + WindowsFrom(|mel|, seek + size);
      if a.result.Ok? {
        var rest := Attempts(ladder, mel, seek + size, a.rng);
        AttemptsAreWindows(ladder, mel, seek + size, a.rng);
        assert ds == [Decoded(Window(seek, size), a)] + rest;
        forall k | 1 <= k < |ds|
          ensures ds[k] == rest[k - 1]
        {
        }
      } else {
        assert ds == [Decoded(Window(seek, size), a)];
      }
    }
  }

  /** The ladder runs until the first window that fails: every window before
      the last one decoded succeeded, and when the last one succeeded too,
      every window was decoded. */
  lemma {:induction false} AttemptsStopAtFailure(ladder: Ladder, mel: seq<Frame>, seek: nat, rng: Rng)
    requires seek <= |mel|
    ensures var ds := Attempts(ladder, mel, seek, rng);
      (forall k | 0 <= k < |ds| - 1 :: ds[k].attempt.result.Ok?) &&
      (ds == [] || ds[|ds| - 1].attempt.result.Ok? ==> |ds| == |WindowsFrom(|mel|, seek)|)
    decreases |mel| - seek
  {
    if seek < |mel| {
      var size := WindowSize(|mel|, seek);
      var a := ladder(mel[seek..seek + size], rng);
      var ds := Attempts(ladder, mel, seek, rng);
      assert |WindowsFrom(|mel|, seek)| == 1 + |WindowsFrom(|mel|, seek + size)|;
      if a.result.Ok? {
        var rest := Attempts(ladder, mel, seek + size, a.rng);
        AttemptsStopAtFailure(ladder, mel, seek + size, a.rng);
        assert ds == [Decoded(Window(seek, size), a)] + rest;
        forall k | 1 <= k < |ds|
          ensures ds[k] == rest[k - 1]
        {
        }
      } else {
        assert ds == [Decoded(Window(seek, size), a)];
      }
    }
  }

  /** The run fails with the error of the first window whose ladder fails,
      and otherwise yields exactly the non-silent decoded windows, in order. */
  lemma {:induction false} RunIsKeptAttempts(ladder: Ladder, mel: seq<Frame>, seek: nat, rng: Rng)
    ensures var ds := Attempts(ladder, mel, seek, rng);
      var r := RunFrom(ladder, mel, seek, rng).result;
      (r.Err? <==> ds != [] && ds[|ds| - 1].attempt.result.Err?) &&
      (r.Err? ==> r.error == ds[|ds| - 1].attempt.result.error) &&
      (r.Ok? ==> r.value == Kept(ds))
    decreases |mel| - seek
  {
    if seek < |mel| {
      var size := WindowSize(|mel|, seek);
      var a := ladder(mel[seek..seek + size], rng);
      if a.result.Ok? {
        RunIsKeptAttempts(ladder, mel, seek + size, a.rng);
        var ds := Attempts(ladder, mel, seek, rng);
        var rest := Attempts(ladder, mel, seek + size, a.rng);
        assert ds == [Decoded(Window(seek, size), a)] + rest;
        assert ds[1..] == rest;
      }
    }
  }

  /** Emitted segments are not silent, start no earlier than the cursor, and
      start at strictly increasing times. */
  lemma {:induction false} RunSegmentsOrdered(ladder: Ladder, mel: seq<Frame>, seek: nat, rng: Rng)
    requires RunFrom(ladder, mel, seek, rng).result.Ok?
    ensures var segs := RunFrom(ladder, mel, seek, rng).result.value;
      (forall i | 0 <= i < |segs| :: FrameSeconds(seek) <= segs[i].start && !Silent(segs[i].dr)) &&
      (forall i, j | 0 <= i < j < |segs| :: segs[i].start < segs[j].start)
    decreases |mel| - seek
  {
    if seek < |mel| {
      var size := WindowSize(|mel|, seek);
      var a := ladder(mel[seek..seek + size], rng);
      RunSegmentsOrdered(ladder, mel, seek + size, a.rng);
      assert FrameSeconds(seek) < FrameSeconds(seek + size);
    }
  }

  /** Each emitted segment starts at the start of one of the cursor's windows
      and lasts exactly that window, so there are at most as many segments as windows. */
  lemma {:induction false} RunSegmentsAreWindows(ladder: Ladder, mel: seq<Frame>, seek: nat, rng: Rng)
    requires RunFrom(ladder, mel, seek, rng).result.Ok?
    ensures var segs := RunFrom(ladder, mel, seek, rng).result.value;
      var ws := WindowsFrom(|mel|, seek);
      |segs| <= |ws| &&
      forall i | 0 <= i < |segs| :: exists k | 0 <= k < |ws| ::
        segs[i].start == FrameSeconds(ws[k].start) && segs[i].duration == FrameSeconds(ws[k].size)
    decreases |mel| - seek
  {
    if seek < |mel| {
      var size := WindowSize(|mel|, seek);
      var a := ladder(mel[seek..seek + size], rng);
      var ws := WindowsFrom(|mel|, seek);
      var wsRest := WindowsFrom(|mel|, seek + size);
      assert ws == [Window(seek, size)] + wsRest;
      RunSegmentsAreWindows(ladder, mel, seek + size, a.rng);
      var rest := RunFrom(ladder, mel, seek + size, a.rng).result.value;
      var segs := RunFrom(ladder, mel, seek, rng).result.value;
      forall i | 0 <= i < |segs|
        ensures exists k | 0 <= k < |ws| ::
          segs[i].start == FrameSeconds(ws[k].start) && segs[i].duration == FrameSeconds(ws[k].size)
      {
        var j := if Silent(a.result.value) then i else i - 1;
        if j < 0 {
          assert segs[i] == Segment(FrameSeconds(seek), FrameSeconds(size), a.result.value);
          assert ws[0] == Window(seek, size);
        } else {
          assert segs[i] == rest[j];
          var k :| 0 <= k < |wsRest| &&
            rest[j].start == FrameSeconds(wsRest[k].start) && rest[j].duration == FrameSeconds(wsRest[k].size);
          assert ws[k + 1] == wsRest[k];
        }
      }
    }
  }

  /** `Segment::transcription`: the decoded text of the segment. */
  function Transcription(s: Segment): string {
    s.dr.text
  }

  /** `segments.iter().map(|s| s.transcription()).collect::<String>()`. */
  function Transcript(segments: seq<Segment>): string
    decreases |segments|
  {
    if segments == [] then ""
    else Transcript(segments[..|segments| - 1]) + Transcription(segments[|segments| - 1])
  }

  /** The transcript of consecutive segment lists is the concatenation of
      their transcripts. */
  lemma {:induction false} TranscriptAppend(a: seq<Segment>, b: seq<Segment>)
    ensures Transcript(a + b) == Transcript(a) + Transcript(b)
    decreases |b|
  {
    if b != [] {
      var b' := b[..|b| - 1];
      assert (a + b)[..|a + b| - 1] == a + b';
      TranscriptAppend(a, b');
    } else {
      assert a + b == a;
    }
  }

  /** Two windows, the first silent and the second speech: the first is
      dropped, the run yields one segment starting at 30 seconds, and the
      transcript is the second window's text. */
  lemma {:induction false} SilentFirstWindowDropped(ladder: Ladder, mel: seq<Frame>, rng: Rng)
    requires NFrames < |mel| <= 2 * NFrames
    requires ladder(mel[..NFrames], rng).result.Ok?
    requires Silent(ladder(mel[..NFrames], rng).result.value)
    requires var a1 := ladder(mel[..NFrames], rng);
      var a2 := ladder(mel[NFrames..], a1.rng);
      a2.result.Ok? && !Silent(a2.result.value)
    ensures var a1 := ladder(mel[..NFrames], rng);
      var a2 := ladder(mel[NFrames..], a1.rng);
      var r := RunFrom(ladder, mel, 0, rng).result;
      r == Ok([Segment(30.0, FrameSeconds(|mel| - NFrames), a2.result.value)]) &&
      Transcript(r.value) == a2.result.value.text
  {
    assert mel[0..0 + NFrames] == mel[..NFrames];
    var a1 := ladder(mel[..NFrames], rng);
    var size2 := WindowSize(|mel|, NFrames);
    assert mel[NFrames..NFrames + size2] == mel[NFrames..];
    var a2 := ladder(mel[NFrames..], a1.rng);
    assert RunFrom(ladder, mel, NFrames + size2, a2.rng) == RunOutcome(Ok([]), a2.rng);
    var seg := Segment(FrameSeconds(NFrames), FrameSeconds(size2), a2.result.value);
    assert [seg] + [] == [seg];
    assert RunFrom(ladder, mel, NFrames, a1.rng).result == Ok([seg]);
    assert FrameSeconds(NFrames) == 30.0;
    var segs := [Segment(30.0, FrameSeconds(|mel| - NFrames), a2.result.value)];
    assert segs[..0] == [];
  }
}
