# Whisper decoding controller of voice_search_server, in Dafny

This project models the decoding controller of `src/transcription.rs`: the
`Decoder` that turns a mel spectrogram into text with a quantized Whisper
model. The controller is a port of OpenAI Whisper's reference decoder. It has
four parts, and each has its own module:

- `ControlTokens` (`control_tokens.dfy`) covers `Decoder::new` and
  `token_id`. It builds the table of control-token ids and the suppression
  mask. The no-speech id is the first name of `NO_SPEECH_TOKENS` that the
  tokenizer knows.
- `DecodeAttempt` (`decode_attempt.dfy`) covers `Decoder::decode`, one
  autoregressive attempt at a fixed temperature. It starts from the prompt
  prefix and adds one token per step. It stops on end of transcript or an
  overlong buffer, chooses greedily (`t <= 0`) or by sampling, and keeps the
  score bookkeeping.
- `Fallback` (`fallback.dfy`) covers `Decoder::decode_with_fallback`, the
  ladder over `TEMPERATURES`.
- `Scheduler` (`scheduler.dfy`) covers `Decoder::run`. A seek cursor cuts
  the input into windows of at most `N_FRAMES` frames, and silent windows are
  dropped. The module also covers `Segment::transcription` and the
  concatenation in `transcribe`.

`Floats` (`floats.dfy`) models the `f64` scores (NaN, negative infinity and
finite values, where any comparison with NaN is false) and the masked
`f32` logits. `Interfaces` (`interfaces.dfy`) holds the errors, the oracles
and the constants of candle-transformers' whisper module.

`Transcription` (`transcription.dfy`) has the imperative code. `Decoder` is
a class whose only mutable field is the random generator. Its methods
`NextToken`, `Decode`, `DecodeWithFallback` and `Run` keep the source's
loops, early returns, `break` and `continue`. Each method is proved equal to
the function that specifies it. `NewDecoder` and `Transcribe` are proved
against `ControlTokens.Build` and `TranscribeSpec`. The properties are proved
as lemmas about these functions.

The model and the tokenizer are oracles. The encoder, the decoder forward
pass with `final_linear`, `decode`, `token_to_id`, softmax and `ln` are given
as function-valued fields. The encoder, the forward pass and the tokenizer's
`decode` may fail, as the `?` after each of them can. Softmax and `ln` are
total, and the tensor plumbing around them never fails in the model (see
"Left out").
The seeded `StdRng` is a seed plus a count of the values drawn so far.
`WeightedIndex` is an oracle index into the candidates of non-zero weight.
Greedy selection is modelled concretely over integer logits, with the
`total_cmp` order.

## Model

| member | source | states |
|---|---|---|
| ControlTokens.TokenId | src/transcription.rs:230-235 | `Ok(id)` exactly when the tokenizer maps the name (and then `id` is its id); otherwise the error names the missing token |
| ControlTokens.FirstKnown | src/transcription.rs:82-84 | `find_map` finds nothing iff no name is known; otherwise the id belongs to a known name, and every earlier name is unknown |
| ControlTokens.SuppressionMask | src/transcription.rs:68-77 | exactly `vocab_size` entries; entry `i` is negative infinity iff `i` is in `suppress_tokens`, and is 0 otherwise |
| ControlTokens.Build | src/transcription.rs:58-100 | with a mask tensor that cannot fail to build, construction succeeds iff the no-timestamps, sot, transcribe and eot names resolve and some no-speech name resolves; the table holds exactly those ids and the mask; the no-speech id is `<\|nocaptions\|>`'s when that resolves, and `<\|nospeech\|>`'s only when the first does not; the error is the first missing required name in lookup order, or the missing no-speech token |
| Floats.Add | src/transcription.rs:166 | `sum_logprob += prob.ln()` on scores: NaN iff an operand is NaN, otherwise negative infinity iff an operand is, otherwise the exact sum |
| Floats.DivByCount | src/transcription.rs:169 | `sum / n` keeps NaN and negative infinity, and otherwise multiplying back by `n` gives the sum |
| DecodeAttempt.Prompt | src/transcription.rs:109-114 | the prefix is sot, the language id when given, transcribe, then no-timestamps: 3 or 4 tokens |
| DecodeAttempt.ApplyMask | src/transcription.rs:144 | the masked logits are negative infinity exactly where the mask is, and equal the raw logit where the mask is 0 |
| DecodeAttempt.Argmax | src/transcription.rs:150-157 | `max_by(total_cmp)` over the enumerated logits, a scan that takes the later element on ties; its contract gives an index into the logits, and `ArgmaxIsLastMax` characterises it |
| DecodeAttempt.ArgmaxIsLastMax | src/transcription.rs:150-157 | the greedy token's logit is at least every logit under `total_cmp`, and every later logit is strictly smaller: on ties, the last maximal index |
| DecodeAttempt.Candidates | src/transcription.rs:146-148 | the ids `WeightedIndex` can draw over `softmax(logits / t)`; its contract gives indices into the logits, and `CandidatesAreFinite` characterises them |
| DecodeAttempt.CandidatesAreFinite | src/transcription.rs:146-148 | the ids sampling can draw are exactly those with a finite masked logit, in increasing order |
| DecodeAttempt.Select | src/transcription.rs:145-158 | the next token is a vocabulary id; greedy never fails and leaves the generator alone; a sampled token has a finite masked logit and costs exactly one draw; the only failure is invalid weights |
| DecodeAttempt.SelectFailsIffAllSuppressed | src/transcription.rs:145-158 | sampling fails exactly when every masked logit is negative infinity; greedy choice is the last maximal index |
| DecodeAttempt.Choose | src/transcription.rs:121-162 | one iteration's choice: a vocabulary id, let through by the mask when sampling or when some id is not suppressed; the no-speech probability changes only on iteration 0; greedy leaves the generator alone and sampling draws once |
| DecodeAttempt.GreedyChoiceIgnoresRng | src/transcription.rs:145-158 | for `t <= 0`, replacing the generator changes nothing about the choice but the generator it carries |
| DecodeAttempt.Stops | src/transcription.rs:163 | the break condition (a definition, with no contract of its own): the pushed token is end of transcript, or the buffer is longer than `max_target_positions` |
| DecodeAttempt.LoopFrom | src/transcription.rs:115-167 | the `for i in 0..sample_len` loop from iteration `i`: push, break on `Stops`, else add the log-probability; a finished loop's buffer extends the buffer it started from |
| DecodeAttempt.LoopShape | src/transcription.rs:115-167 | one token per iteration, at most `max_target_positions / 2` of them; end of transcript only as the last token; an early exit only just after end of transcript or once the buffer is longer than `max_target_positions`; and no token is pushed after the buffer grew longer than `max_target_positions` |
| DecodeAttempt.LoopTokens | src/transcription.rs:145-159 | every generated token is a vocabulary id, and one the mask lets through when sampling or when some id is not suppressed |
| DecodeAttempt.LoopKeeps | src/transcription.rs:125-130 | the no-speech probability is written only on iteration 0, and a greedy loop never draws from the generator |
| DecodeAttempt.LoopIgnoresRng | src/transcription.rs:115-167 | when no choice depends on the generator, the loop's outcome does not either |
| DecodeAttempt.LoopSum | src/transcription.rs:163-166 | the running sum is the fold of the added log-probabilities: one term per generated token, except the token that triggered the break |
| DecodeAttempt.Decode | src/transcription.rs:103-179 | `Decoder::decode` as a function of the generator (a definition, with no contract of its own): an encoder error, the loop's error with the generator as it stood, a tokenizer error, or the result with `avg_logprob = sum / len`; `Decoder.Decode` is proved equal to it |
| DecodeAttempt.DecodeTokens | src/transcription.rs:103-179 | a successful attempt's tokens are the prefix and then at most `max_target_positions / 2` admissible tokens; end of transcript appears only last; an early stop has a reason; once the buffer is longer than `max_target_positions` no token follows; the result records `temperature = t` and `compression_ratio = NaN` |
| DecodeAttempt.DecodeFitsContext | src/transcription.rs:106-114 | when `max_target_positions` is at least twice the prefix, the buffer never exceeds `max_target_positions` |
| DecodeAttempt.DecodeNoSpeech | src/transcription.rs:108-130 | the no-speech probability is the softmax, at the no-speech id, of the first decoder call's first-position logits; it is NaN when there is no iteration |
| DecodeAttempt.DecodeScore | src/transcription.rs:163-169 | `avg_logprob` is the sum of the added terms divided by the whole buffer length, prefix included; it is non-positive when the kernels yield log-probabilities for finite logits and every chosen token has a finite masked logit (when sampling, or when some id is not suppressed) |
| DecodeAttempt.GreedyDeterministic | src/transcription.rs:145-158 | a greedy attempt's result does not depend on the generator, and the attempt leaves the generator unchanged |
| Fallback.NeedsFallback | src/transcription.rs:190-191 | `needs_fallback` (a definition): the compression ratio is above 2.4 or the average log-probability below -1.0, where a comparison with NaN is false |
| Fallback.Acceptable | src/transcription.rs:192 | when a non-final rung returns its result (a definition): it needs no fallback, or the no-speech probability is above 0.6 |
| Fallback.FallbackFrom | src/transcription.rs:182-200 | the ladder from rung `k` (a definition): the final rung returns its attempt as it is, an earlier rung returns a good attempt and otherwise passes its generator on; `FallbackIsFirstGoodRung` characterises it |
| Fallback.DecodeWithFallback | src/transcription.rs:181-202 | `decode_with_fallback` (a definition): the ladder from the first temperature; `Decoder.DecodeWithFallback` is proved equal to it |
| Fallback.FallbackIsFirstGoodRung | src/transcription.rs:181-202 | the ladder returns the attempt of the first good rung, or the last rung's attempt when no earlier rung is good; errors and rejected results before it are swallowed, and no later rung runs |
| Fallback.FallbackErrorIsLastRung | src/transcription.rs:182-198 | an error leaves the ladder only as the last rung's own outcome, after every earlier rung was not good |
| Fallback.FallbackResultAccepted | src/transcription.rs:189-194 | a returned result passed the gate, or is the last rung's result at temperature 1.0 |
| Fallback.GateIgnoresCompression | src/transcription.rs:190-192 | because the compression ratio is NaN, `needs_fallback` reduces to `avg_logprob < LOGPROB_THRESHOLD` |
| Scheduler.FrameSeconds | src/transcription.rs:210-213 | `(frames * HOP_LENGTH) as f64 / SAMPLE_RATE as f64` as an exact real (a definition), used for both `time_offset` and `segment_duration` |
| Scheduler.Silent | src/transcription.rs:216 | the silence verdict (a definition): no-speech probability above 0.6 and average log-probability below -1.0 |
| Scheduler.WindowSize | src/transcription.rs:211 | `min(content_frames - seek, N_FRAMES)` is between 1 and `N_FRAMES`, stays inside the input, and is short only at the end |
| Scheduler.RunFrom | src/transcription.rs:208-225 | the `while seek < content_frames` loop from cursor `seek` (a definition): decode the window through the ladder, abort on its error, advance by the whole window, keep it unless silent; `RunIsKeptAttempts` characterises it |
| Scheduler.Run | src/transcription.rs:204-227 | `Decoder::run` (a definition): the loop from frame 0 over the decoder's ladder; `Decoder.Run` is proved equal to it |
| Scheduler.WindowsPartition | src/transcription.rs:206-215 | the windows partition `[seek, content_frames)` contiguously; all but the last are `N_FRAMES` long; there are `ceil((content_frames - seek) / N_FRAMES)` of them |
| Scheduler.AttemptsAreWindows | src/transcription.rs:208-215 | the ladder runs on the partition's windows, in cursor order |
| Scheduler.AttemptsStopAtFailure | src/transcription.rs:214-215 | every window before a failing one succeeded, and without a failure every window is decoded, silent ones included |
| Scheduler.RunIsKeptAttempts | src/transcription.rs:204-227 | the run fails with the error of the first failing window; otherwise it yields exactly the non-silent decoded windows, in order |
| Scheduler.RunSegmentsOrdered | src/transcription.rs:210-224 | emitted segments are not silent, start no earlier than the cursor, and start at strictly increasing times |
| Scheduler.RunSegmentsAreWindows | src/transcription.rs:210-213 | each segment starts at the start of one window and lasts exactly that window; there are no more segments than windows |
| Scheduler.Transcription | src/transcription.rs:258-260 | `Segment::transcription` (a definition): the segment's decoded text |
| Scheduler.Transcript | src/transcription.rs:37 | the `collect::<String>()` of the segment texts, in order (a definition); `TranscriptAppend` states how it composes |
| Scheduler.TranscriptAppend | src/transcription.rs:37 | the transcript of two segment lists, one after the other, is their transcripts concatenated |
| Scheduler.SilentFirstWindowDropped | src/transcription.rs:215-218 | with two windows where the first is silent, the run yields only the second, starting at 30 seconds, and the transcript is its text |
| Transcription.Decoder.constructor | src/transcription.rs:89-99 | a decoder holds its tables and a generator seeded with `seed` that has not drawn yet |
| Transcription.Decoder.NextToken | src/transcription.rs:121-162 | the first part of an iteration makes exactly `DecodeAttempt.Choose`'s choice, and the generator advances only by a draw |
| Transcription.Decoder.Decode | src/transcription.rs:103-179 | the `for` loop with its `break` returns exactly `DecodeAttempt.Decode`'s result and generator |
| Transcription.Decoder.DecodeWithFallback | src/transcription.rs:181-202 | the loop with early returns returns exactly `Fallback.DecodeWithFallback`'s result and generator |
| Transcription.Decoder.Run | src/transcription.rs:204-227 | the `while` loop with `continue` returns exactly `Scheduler.Run`'s segments and generator |
| Transcription.NewDecoder | src/transcription.rs:58-100 | it fails exactly when `Build` fails, with the same error; otherwise it yields a fresh decoder over `Build`'s tables, seeded with `seed` |
| Transcription.Transcribe | src/transcription.rs:29-37 | with seed 0 and no language, the text is `TranscribeSpec`: the segment texts in order, or the first error |
| Transcription.TranscriptIsKeptText | src/transcription.rs:29-37 | the transcript is the concatenated text of the decoded non-silent windows, in window order; it fails exactly when construction fails or some window's ladder fails, with that error |

## Left out

- Tensor arithmetic is not modelled. The encoder and decoder forward passes, `final_linear`, softmax, `ln` and the division by `t` are oracles. Their failures are single error values.
- `broadcast_add` is modelled only for logits as long as the mask. A mask of another length is a shape error. Broadcasting a length-1 operand is not modelled.
- Logits are integers, so NaN and `-0.0` logits under `total_cmp` are not modelled. A suppressed logit is negative infinity, whatever its raw value.
- Sampling has no real distribution. `WeightedIndex` is an oracle index into the ids with a finite masked logit, fed by the generator's next value. A weight that underflows to zero in `f32` is still treated as a candidate. `WeightedIndex::new` fails only when no id is a candidate.
- `StdRng` is a seed plus the number of values drawn. Each sample is one draw.
- Decoder.Decode, Decoder.DecodeWithFallback and Decoder.Run require a vocabulary of at least one id (`Ready`). This is an assumption of the model, which needs a non-empty logit row for its greedy `Argmax`. In the source, the first-position row is as long as the vocabulary, so with an empty vocabulary the no-speech lookup at lines 126-129 fails before greedy selection is reached, and with `max_target_positions < 2` there is no iteration at all. The model's forward oracle gives the two rows independent lengths, so it cannot derive this.
- Several `?`s never fail in the model: `Tensor::new` of the mask (line 78) and of the token buffer (line 116), `unsqueeze` (line 120), `final_linear` and the indexing around it (lines 126 and 133-136), `dims3` (line 132), the division by `t` and `to_vec1` (lines 146-147 and 151), and the softmaxes with their `to_scalar` (lines 127-129 and 160-162). So `Build` succeeds exactly when the token names resolve. A failure at lines 160-162 would come after the sampling draw and leave the generator advanced; the model has no such path. The failures that are modelled are the encoder (line 105), the forward pass (line 121), a no-speech id outside the first-position row (line 128), a logit row whose length differs from the mask (line 144), `WeightedIndex::new` (line 148) and the tokenizer's `decode` (line 168).
- DecodeAttempt.DecodeScore: non-positivity of `avg_logprob` is promised only when every chosen token has a finite masked logit, that is, when sampling or when some id is not suppressed. Greedy decoding over a fully suppressed vocabulary picks a negative-infinity logit, and candle's softmax of such a row is NaN, so the score is whatever the oracle makes of it.
- `vocab_size as u32` truncation and the `u32` token ids are not modelled. Ids are unbounded naturals.
- `time_offset` and `segment_duration` are exact reals, with no `f64` rounding.
- Scores are exact reals with NaN and negative infinity, with no `f64` rounding. The softmax value is widened from `f32` by the oracle.
- `println!` logging of errors on non-final rungs and the `Instant` timing are not modelled. Neither affects any result.
- Decoder.DecodeWithFallback loops over the non-final rungs and then runs the final rung unconditionally. The source instead checks `i == TEMPERATURES.len() - 1` inside the loop and ends with `unreachable!()`. Both run the same rungs in the same order, with the same outcome.
- `transcribe` lines 14-27 are not modelled: the Metal device, building the mel tensor from the flat features and loading GGUF weights. The model takes the mel spectrogram as frames and the model as given.
- The tokenizer's `decode(tokens, true)` is an oracle. Skipping special tokens happens inside it.
- The integration tests and the other source files (`audio.rs`, `main.rs`, `whisper.rs`, `whisper_repo.rs`, `transcribe.rs`, `config.rs`) are not part of this model.
- Three behaviours of the code are easy to misread. The model follows the code:
  - The buffer is bounded by the prefix length plus `max_target_positions / 2`. It stays within `max_target_positions` only when that is at least twice the prefix (`DecodeFitsContext`).
  - Greedy ties go to the last maximal index, not the first.
  - A failing window aborts the whole run.
