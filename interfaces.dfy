/** What the decoding controller consumes but does not implement: the Whisper
    model (encoder and decoder forward passes), the tokenizer, the numeric
    kernels (softmax, natural logarithm, weighted sampling) and the seeded
    random generator; plus the error values and the constants of the
    candle-transformers Whisper module that the controller is configured with. */
module Interfaces {
  import opened Floats

  /** Why an operation failed (each stands for an `anyhow::Error` of the source). */
  datatype Error =
    | MissingToken(name: string)          // "no token-id for {token}"
    | NoSpeechTokenUnavailable            // "unable to find any non-speech token"
    | IndexOutOfRange(index: nat, len: nat) // a tensor `.i(index)` past its end
    | ShapeMismatch                       // `broadcast_add` of logits and mask
    | InvalidWeights                      // `WeightedIndex::new` on all-zero/NaN weights
    | Backend(message: string)            // a failure inside the model or the tokenizer

  datatype Option<T> = None | Some(value: T)

  /** `Result<T, anyhow::Error>`; `:-` plays the part of the source's `?`. */
  datatype Result<T> = Ok(value: T) | Err(error: Error) {
    predicate IsFailure() {
      Err?
    }

    function PropagateFailure<U>(): Result<U>
      requires Err?
    {
      Err(error)
    }

    function Extract(): T
      requires Ok?
    {
      value
    }
  }

  /** One column of the mel spectrogram (one value per mel bin). */
  type Frame = seq<real>

  /** The encoder output for one window, cached for a whole decode attempt. */
  type Features = seq<real>

  /** Decoder logits for one step: at the first position (read for the
      no-speech probability) and at the last position (the next token). */
  datatype StepLogits = StepLogits(first: seq<int>, last: seq<int>)

  /** The fields of the model configuration the controller reads. */
  datatype Config = Config(vocabSize: nat, maxTargetPositions: nat, suppressTokens: seq<nat>)

  /** The quantized Whisper model: `encoder.forward` over a mel window, and
      `decoder.forward` followed by `final_linear` over the token buffer
      (the flag is `i == 0`, which flushes the key-value cache). */
  datatype Whisper = Whisper(
    config: Config,
    encode: seq<Frame> -> Result<Features>,
    forward: (Features, seq<nat>, bool) -> Result<StepLogits>)

  /** The tokenizer: `token_to_id` as a finite map, and `decode(ids, true)`. */
  datatype Tokenizer = Tokenizer(ids: map<string, nat>, decode: seq<nat> -> Result<string>)

  /** Numeric kernels and randomness:
      - `softmaxAt(xs, i)`: element `i` of `softmax(xs)`, as `f32` widened to `f64`;
      - `ln`: `f64::ln`;
      - `weightedIndex(xs, t, u)`: the draw `WeightedIndex` makes over
        `softmax(xs / t)` from the random value `u`, before it is mapped onto
        the tokens of non-zero weight;
      - `stream(seed, n)`: the `n`-th value of `StdRng::seed_from_u64(seed)`. */
  datatype Numerics = Numerics(
    softmaxAt: (seq<Logit>, nat) -> F64,
    ln: F64 -> F64,
    weightedIndex: (seq<Logit>, real, nat) -> nat,
    stream: (nat, nat) -> nat)

  // Token names, thresholds and sizes of candle-transformers' whisper module.
  const SotToken: string := "<|startoftranscript|>"
  const TranscribeToken: string := "<|transcribe|>"
  const EotToken: string := "<|endoftext|>"
  const NoTimestampsToken: string := "<|notimestamps|>"
  const NoSpeechTokens: seq<string> := ["<|nocaptions|>", "<|nospeech|>"]

  const Temperatures: seq<real> := [0.0, 0.2, 0.4, 0.6, 0.8, 1.0]
  const CompressionRatioThreshold: real := 2.4
  const LogprobThreshold: real := -1.0
  const NoSpeechThreshold: real := 0.6

  const SampleRate: nat := 16000
  const HopLength: nat := 160
  /** Frames in one 30-second window: 30 * SampleRate / HopLength. */
  const NFrames: nat := 3000
}
