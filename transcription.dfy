/** The `Decoder` object and `transcribe`: the imperative code of the
    controller, each method proved equal to the function that specifies it
    (`ControlTokens.Build`, `DecodeAttempt.Decode`,
    `Fallback.DecodeWithFallback`, `Scheduler.Run`), with the random
    generator as the decoder's one mutable field. */
module Transcription {
  import opened Floats
  import opened Interfaces
  import opened ControlTokens
  import opened DecodeAttempt
  import opened Fallback
  import opened Scheduler

  class Decoder {
    /** The model, tokenizer, numeric kernels, control-token ids and mask. */
    const decoding: Decoding
    /** `rng: StdRng`, the only state that changes after construction. */
    var rng: Rng

    constructor (decoding: Decoding, seed: nat)
      ensures this.decoding == decoding && rng == Rng(seed, 0)
    {
      this.decoding := decoding;
      rng := Rng(seed, 0);
    }

    /** The first part of iteration `i` of `Decoder::decode`: the decoder
        call, the no-speech probability on the first iteration, the mask and
        the choice of the next token (one draw from the generator when
        sampling), with the probability of that token. */
    method NextToken(features: Features, t: real, i: nat, tokens: seq<nat>, noSpeechProb: F64, ghost sumLogprob: F64)
      returns (c: Decision)
      requires Ready(decoding)
      modifies this
      ensures c == Choose(decoding, features, t, i, LoopState(tokens, sumLogprob, noSpeechProb, old(rng)))
      ensures rng == if c.Decided? then c.rng else old(rng)
    {
      var d: ReadyDecoding := decoding;
      var ys := d.model.forward(features, tokens, i == 0);
      if ys.Err? {
        return Failed(ys.error);
      }
      var noSpeech := noSpeechProb;
      if i == 0 {
        if d.specials.noSpeech >= |ys.value.first| {
          return Failed(IndexOutOfRange(d.specials.noSpeech, |ys.value.first|));
        }
        noSpeech := d.numerics.softmaxAt(Lift(ys.value.first), d.specials.noSpeech);
      }
      if |ys.value.last| != |d.mask| {
        return Failed(ShapeMismatch);
      }
      var logits := ApplyMask(ys.value.last, d.mask);
      var next: nat;
      if t > 0.0 {
        var candidates := Candidates(logits);
        if |candidates| == 0 {
          return Failed(InvalidWeights);
        }
        next := candidates[d.numerics.weightedIndex(logits, t, d.numerics.stream(rng.seed, rng.drawn)) % |candidates|];
        rng := Advance(rng);
      } else {
        next := Argmax(logits);
      }
      var prob := d.numerics.softmaxAt(logits, next);
      return Decided(next, prob, noSpeech, rng);
    }

    /** `Decoder::decode(mel, t)`: one attempt, drawing from the decoder's
        generator when sampling. */
    method Decode(mel: seq<Frame>, t: real) returns (r: Result<DecodingResult>)
      requires Ready(decoding)
      modifies this
      ensures Attempt(r, rng) == DecodeAttempt.Decode(decoding, mel, t, old(rng))
    {
      var d: ReadyDecoding := decoding;
      var encoded := d.model.encode(mel);
      if encoded.Err? {
        return Err(encoded.error);
      }
      var features := encoded.value;
      ghost var choose := Chooses(d, features, t);
      var sampleLen := d.model.config.maxTargetPositions / 2;
      var sumLogprob := Num(0.0);
      var noSpeechProb := NaN;
      var tokens := [d.specials.sot];
      if d.specials.language.Some? {
        tokens := tokens + [d.specials.language.value];
      }
      tokens := tokens + [d.specials.transcribe, d.specials.noTimestamps];
      assert LoopState(tokens, sumLogprob, noSpeechProb, rng) == InitialState(d, old(rng));
      ghost var outcome := LoopFrom(d, choose, 0, InitialState(d, old(rng)));
      var i := 0;
      while i < sampleLen
        invariant i <= sampleLen
        invariant outcome == LoopFrom(d, choose, i, LoopState(tokens, sumLogprob, noSpeechProb, rng))
      {
        ghost var st := LoopState(tokens, sumLogprob, noSpeechProb, rng);
        var c := NextToken(features, t, i, tokens, noSpeechProb, sumLogprob);
        assert choose(i, st) == c;
        if c.Failed? {
          return Err(c.error);
        }
        tokens := tokens + [c.token];
        noSpeechProb := c.noSpeechProb;
        if c.token == d.specials.eot || |tokens| > d.model.config.maxTargetPositions {
          break;
        }
        sumLogprob := Add(sumLogprob, d.numerics.ln(c.prob));
        i := i + 1;
      }
      assert outcome == Finished(LoopState(tokens, sumLogprob, noSpeechProb, rng));
      var text := d.tokenizer.decode(tokens);
      if text.Err? {
        return Err(text.error);
      }
      var avgLogprob := DivByCount(sumLogprob, |tokens|);
      return Ok(DecodingResult(tokens, text.value, avgLogprob, noSpeechProb, t, NaN));
    }

    /** `Decoder::decode_with_fallback(segment)`: every rung but the last
        returns a good result and otherwise passes to the next temperature;
        the last rung's outcome is returned as it is. */
    method DecodeWithFallback(segment: seq<Frame>) returns (r: Result<DecodingResult>)
      requires Ready(decoding)
      modifies this
      ensures Attempt(r, rng) == Fallback.DecodeWithFallback(decoding, segment, old(rng))
    {
      var k := 0;
      while k < |Temperatures| - 1
        invariant k <= |Temperatures| - 1
        invariant FallbackFrom(decoding, segment, 0, old(rng)) == FallbackFrom(decoding, segment, k, rng)
      {
        var dr := Decode(segment, Temperatures[k]);
        if dr.Ok? {
          var needsFallback :=
            Gt(dr.value.compressionRatio, CompressionRatioThreshold) || Lt(dr.value.avgLogprob, LogprobThreshold);
          if !needsFallback || Gt(dr.value.noSpeechProb, NoSpeechThreshold) {
            return dr;
          }
        }
        k := k + 1;
      }
      r := Decode(segment, Temperatures[k]);
    }

    /** `Decoder::run(mel)`: decode the windows in cursor order, drop the
        silent ones, and abort on the first window whose ladder fails. */
    method Run(mel: seq<Frame>) returns (r: Result<seq<Segment>>)
      requires Ready(decoding)
      modifies this
      ensures RunOutcome(r, rng) == Scheduler.Run(decoding, mel, old(rng))
    {
      var contentFrames := |mel|;
      var seek := 0;
      var segments := [];
      PrependNothing(RunFrom(LadderOf(decoding), mel, seek, rng));
      while seek < contentFrames
        invariant seek <= contentFrames
        invariant Scheduler.Run(decoding, mel, old(rng)) ==
          Prepend(segments, RunFrom(LadderOf(decoding), mel, seek, rng))
      {
        var timeOffset := FrameSeconds(seek);
        var segmentSize := if contentFrames - seek < NFrames then contentFrames - seek else NFrames;
        var melSegment := mel[seek..seek + segmentSize];
        var segmentDuration := FrameSeconds(segmentSize);
        RunFromStep(LadderOf(decoding), mel, seek, rng);
        ghost var before := rng;
        var dr := DecodeWithFallback(melSegment);
        LadderOfDecoder(decoding, melSegment, before);
        if dr.Err? {
          return Err(dr.error);
        }
        seek := seek + segmentSize;
        if Gt(dr.value.noSpeechProb, NoSpeechThreshold) && Lt(dr.value.avgLogprob, LogprobThreshold) {
          continue;
        }
        PrependTwice(segments, [Segment(timeOffset, segmentDuration, dr.value)],
                     RunFrom(LadderOf(decoding), mel, seek, rng));
        segments := segments + [Segment(timeOffset, segmentDuration, dr.value)];
      }
      assert segments + [] == segments;
      r := Ok(segments);
    }
  }

  lemma PrependNothing(o: RunOutcome)
    ensures Prepend([], o) == o
  {
    if o.result.Ok? {
      assert [] + o.result.value == o.result.value;
    }
  }

  lemma PrependTwice(a: seq<Segment>, b: seq<Segment>, o: RunOutcome)
    ensures Prepend(a, Prepend(b, o)) == Prepend(a + b, o)
  {
    if o.result.Ok? {
      assert a + (b + o.result.value) == (a + b) + o.result.value;
    }
  }

  /** `Decoder::new(model, tokenizer, seed, device, language_token)`: the
      lookups in the source's order, each failing the construction, then a
      generator seeded with `seed`. */
  method NewDecoder(model: Whisper, tokenizer: Tokenizer, numerics: Numerics, seed: nat, language: Option<nat>)
    returns (r: Result<Decoder>)
    ensures var b := Build(model.config, tokenizer, language);
      (r.Ok? <==> b.Ok?) &&
      (r.Err? ==> r.error == b.error) &&
      (r.Ok? ==> fresh(r.value) && r.value.rng == Rng(seed, 0) &&
                 r.value.decoding == Decoding(model, tokenizer, numerics, b.value.specials, b.value.mask))
  {
    var noTimestamps :- TokenId(tokenizer, NoTimestampsToken);
    var mask := SuppressionMask(model.config);
    var sot :- TokenId(tokenizer, SotToken);
    var transcribe :- TokenId(tokenizer, TranscribeToken);
    var eot :- TokenId(tokenizer, EotToken);
    var noSpeech := FirstKnown(tokenizer, NoSpeechTokens);
    if noSpeech.None? {
      return Err(NoSpeechTokenUnavailable);
    }
    var specials := SpecialTokens(sot, language, transcribe, eot, noSpeech.value, noTimestamps);
    var dc := new Decoder(Decoding(model, tokenizer, numerics, specials, mask), seed);
    return Ok(dc);
  }

  /** What `transcribe` computes from a mel spectrogram: a decoder built with
      seed 0 and no language, run over every frame, and the texts of its
      segments concatenated in order. */
  function TranscribeSpec(model: Whisper, tokenizer: Tokenizer, numerics: Numerics, mel: seq<Frame>): Result<string>
    requires model.config.vocabSize > 0
  {
    var tables :- Build(model.config, tokenizer, None);
    var d: ReadyDecoding := Decoding(model, tokenizer, numerics, tables.specials, tables.mask);
    var segments :- Run(d, mel, Rng(0, 0)).result;
    Ok(Transcript(segments))
  }

  /** `transcribe(features, files)` once the model is loaded and the mel
      tensor is built. */
  method Transcribe(model: Whisper, tokenizer: Tokenizer, numerics: Numerics, mel: seq<Frame>) returns (r: Result<string>)
    requires model.config.vocabSize > 0
    ensures r == TranscribeSpec(model, tokenizer, numerics, mel)
  {
    var dc :- NewDecoder(model, tokenizer, numerics, 0, None);
    var segments :- dc.Run(mel);
    return Ok(Transcript(segments));
  }

  /** The transcript is the concatenated text of the windows that were
      decoded and not silent, in window order; it fails exactly when the
      decoder cannot be built or some window's ladder fails, with that error. */
  lemma TranscriptIsKeptText(model: Whisper, tokenizer: Tokenizer, numerics: Numerics, mel: seq<Frame>)
    requires model.config.vocabSize > 0
    ensures var r := TranscribeSpec(model, tokenizer, numerics, mel);
      var b := Build(model.config, tokenizer, None);
      (b.Err? ==> r == Err(b.error)) &&
      (b.Ok? ==>
        var d: ReadyDecoding := Decoding(model, tokenizer, numerics, b.value.specials, b.value.mask);
        var ds := Attempts(LadderOf(d), mel, 0, Rng(0, 0));
        (r.Err? <==> ds != [] && ds[|ds| - 1].attempt.result.Err?) &&
        (r.Err? ==> r.error == ds[|ds| - 1].attempt.result.error) &&
        (r.Ok? ==> r.value == Transcript(Kept(ds))))
  {
    var b := Build(model.config, tokenizer, None);
    if b.Ok? {
      var d: ReadyDecoding := Decoding(model, tokenizer, numerics, b.value.specials, b.value.mask);
      RunIsKeptAttempts(LadderOf(d), mel, 0, Rng(0, 0));
    }
  }
}
