/** One autoregressive decode attempt at a fixed temperature (`Decoder::decode`),
    as a function of the decoder's read-only parts, the mel window, the
    temperature and the state of the decoder's random generator. */
module DecodeAttempt {
  import opened Floats
  import opened Interfaces
  import opened ControlTokens

  /** `StdRng::seed_from_u64(seed)` after `drawn` values were taken from it. */
  datatype Rng = Rng(seed: nat, drawn: nat)

  /** The parts of `Decoder` that never change after construction. */
  datatype Decoding = Decoding(
    model: Whisper,
    tokenizer: Tokenizer,
    numerics: Numerics,
    specials: SpecialTokens,
    mask: seq<Logit>)

  /** A decoder whose vocabulary is not empty: greedy selection unwraps the
      maximum of the masked logits, which has one element per vocabulary id. */
  predicate Ready(d: Decoding) {
    |d.mask| > 0
  }

  /** The decoders the attempt is defined for. */
  type ReadyDecoding = d: Decoding | Ready(d)
    ghost witness Decoding(
      Whisper(Config(1, 0, []), mel => Err(ShapeMismatch), (f, ts, first) => Err(ShapeMismatch)),
      Tokenizer(map[], ts => Err(ShapeMismatch)),
      Numerics((xs, i) => NaN, x => x, (xs, t, n) => 0, (seed, k) => 0),
      SpecialTokens(0, None, 0, 0, 0, 0),
      [Fin(0)])

  datatype DecodingResult = DecodingResult(
    tokens: seq<nat>,
    text: string,
    avgLogprob: F64,
    noSpeechProb: F64,
    temperature: real,
    compressionRatio: F64)

  /** What an attempt returns, with the generator as the attempt left it. */
  datatype Attempt = Attempt(result: Result<DecodingResult>, rng: Rng)

  /** The prompt prefix: start of transcript, the language (when given),
      transcribe, no timestamps. */
  function Prompt(sp: SpecialTokens): (p: seq<nat>)
    ensures |p| == if sp.language.Some? then 4 else 3
    ensures p[0] == sp.sot && p[|p| - 2] == sp.transcribe && p[|p| - 1] == sp.noTimestamps
    ensures sp.language.Some? ==> p[1] == sp.language.value
  {
    [sp.sot] + (if sp.language.Some? then [sp.language.value] else []) + [sp.transcribe, sp.noTimestamps]
  }

  /** The number of loop steps: `max_target_positions / 2`. */
  function SampleLen(cfg: Config): nat {
    cfg.maxTargetPositions / 2
  }

  /** `logits.broadcast_add(&suppress_tokens)` for logits of the mask's length. */
  function ApplyMask(logits: seq<int>, mask: seq<Logit>): (m: seq<Logit>)
    requires |logits| == |mask|
    ensures |m| == |mask|
    ensures forall i | 0 <= i < |m| :: m[i].NegInf? <==> mask[i].NegInf?
    ensures forall i | 0 <= i < |m| :: mask[i] == Fin(0) ==> m[i] == Fin(logits[i])
  {
    seq(|mask|, i requires 0 <= i < |mask| => Plus(Fin(logits[i]), mask[i]))
  }

  /** Greedy choice: `max_by(total_cmp)` over the enumerated logits. */
  function Argmax(xs: seq<Logit>): (k: nat)
    requires |xs| > 0
    ensures k < |xs|
    decreases |xs|
  {
    if |xs| == 1 then 0
    else
      var k := Argmax(xs[..|xs| - 1]);
      if LogitLe(xs[k], xs[|xs| - 1]) then |xs| - 1 else k
  }

  /** `max_by` keeps the later element on ties: the result is the LAST index
      of a maximal logit. */
  lemma {:induction false} ArgmaxIsLastMax(xs: seq<Logit>)
    requires |xs| > 0
    ensures var k := Argmax(xs);
      (forall j | 0 <= j < |xs| :: LogitLe(xs[j], xs[k])) &&
      (forall j | k < j < |xs| :: !LogitLe(xs[k], xs[j]))
    decreases |xs|
  {
    if |xs| > 1 {
      var ys := xs[..|xs| - 1];
      ArgmaxIsLastMax(ys);
      assert forall j | 0 <= j < |ys| :: ys[j] == xs[j];
    }
  }

  /** The ids `WeightedIndex` can draw: those whose masked logit is finite
      (the softmax gives a suppressed id weight zero), in increasing order. */
  function Candidates(xs: seq<Logit>): (c: seq<nat>)
    ensures forall a | 0 <= a < |c| :: c[a] < |xs|
    decreases |xs|
  {
    if xs == [] then []
    else Candidates(xs[..|xs| - 1]) + (if xs[|xs| - 1].Fin? then [|xs| - 1] else [])
  }

  /** The candidates are exactly the ids with a finite logit, each once, in
      increasing order. */
  lemma {:induction false} CandidatesAreFinite(xs: seq<Logit>)
    ensures var c := Candidates(xs);
      (forall i: nat :: i in c <==> i < |xs| && xs[i].Fin?) &&
      (forall a, b | 0 <= a < b < |c| :: c[a] < c[b])
    decreases |xs|
  {
    if xs != [] {
      var ys := xs[..|xs| - 1];
      CandidatesAreFinite(ys);
      assert forall j | 0 <= j < |ys| :: ys[j] == xs[j];
    }
  }

  /** The generator after one draw. */
  function Advance(rng: Rng): Rng {
    Rng(rng.seed, rng.drawn + 1)
  }

  datatype Choice = Choice(token: nat, rng: Rng)

  /** The next token: greedy for `t <= 0`, otherwise one draw of the
      generator over the tokens of non-zero weight. */
  function Select(n: Numerics, masked: seq<Logit>, t: real, rng: Rng): (r: Result<Choice>)
    requires |masked| > 0
    ensures r.Ok? ==> r.value.token < |masked|
    ensures t <= 0.0 ==> r.Ok? && r.value.rng == rng
    ensures t > 0.0 && r.Ok? ==> masked[r.value.token].Fin? && r.value.rng == Advance(rng)
    ensures r.Err? ==> r.error == InvalidWeights
  {
    if t > 0.0 then
      var c := Candidates(masked);
      if |c| == 0 then Err(InvalidWeights)
      else
        var token := c[n.weightedIndex(masked, t, n.stream(rng.seed, rng.drawn)) % |c|];
        CandidatesAreFinite(masked);
        assert token in c;
        Ok(Choice(token, Advance(rng)))
    else
      Ok(Choice(Argmax(masked), rng))
  }

  /** Sampling fails (the weights are invalid) exactly when every id is
      suppressed; greedy selection never fails and picks the last maximal logit. */
  lemma {:induction false} SelectFailsIffAllSuppressed(n: Numerics, masked: seq<Logit>, t: real, rng: Rng)
    requires |masked| > 0
    ensures var r := Select(n, masked, t, rng);
      (t > 0.0 ==> (r.Ok? <==> exists i | 0 <= i < |masked| :: masked[i].Fin?)) &&
      (t <= 0.0 ==> r == Ok(Choice(Argmax(masked), rng)))
  {
    CandidatesAreFinite(masked);
    var c := Candidates(masked);
    if t > 0.0 && |c| > 0 {
      assert c[0] in c;
    }
  }

  /** The variables the decode loop updates. */
  datatype LoopState = LoopState(tokens: seq<nat>, sumLogprob: F64, noSpeechProb: F64, rng: Rng)

  /** What one iteration decides before it touches the buffer: the next
      token, the softmax probability of that token, the no-speech
      probability so far and the generator afterwards. */
  datatype Decision = Decided(token: nat, prob: F64, noSpeechProb: F64, rng: Rng) | Failed(error: Error)

  /** The first part of iteration `i`: the decoder call, the no-speech
      probability (on the first iteration only), the mask and the choice. */
  function Choose(d: ReadyDecoding, features: Features, t: real, i: nat, st: LoopState): (r: Decision)
    ensures r.Decided? ==> r.token < |d.mask|
    ensures r.Decided? && i > 0 ==> r.noSpeechProb == st.noSpeechProb
    ensures r.Decided? && t <= 0.0 ==> r.rng == st.rng
    ensures r.Decided? && t > 0.0 ==> r.rng == Advance(st.rng)
    ensures r.Decided? && (t > 0.0 || Unsuppressed(d.mask)) ==> d.mask[r.token].Fin?
  {
    match d.model.forward(features, st.tokens, i == 0)
    case Err(e) => Failed(e)
    case Ok(ys) =>
      if i == 0 && d.specials.noSpeech >= |ys.first| then
        Failed(IndexOutOfRange(d.specials.noSpeech, |ys.first|))
      else
        var noSpeechProb :=
          if i == 0 then d.numerics.softmaxAt(Lift(ys.first), d.specials.noSpeech) else st.noSpeechProb;
        if |ys.last| != |d.mask| then Failed(ShapeMismatch)
        else
          var logits := ApplyMask(ys.last, d.mask);
          ArgmaxIsLastMax(logits);
          match Select(d.numerics, logits, t, st.rng)
          case Err(e) => Failed(e)
          case Ok(c) => Decided(c.token, d.numerics.softmaxAt(logits, c.token), noSpeechProb, c.rng)
  }

  /** Some vocabulary id is not suppressed. */
  predicate Unsuppressed(mask: seq<Logit>) {
    exists j | 0 <= j < |mask| :: mask[j].Fin?
  }

  /** One iteration's choice, as a function of the iteration number and the
      loop variables. */
  type Chooser = (nat, LoopState) -> Decision

  /** The choices `Decoder::decode` makes for the encoder output `features`
      at temperature `t`. */
  function Chooses(d: ReadyDecoding, features: Features, t: real): Chooser {
    (i: nat, st: LoopState) => Choose(d, features, t, i, st)
  }

  /** What the loop lemmas rely on from a choice made at iteration `i` from
      the variables `st`: a vocabulary id, let through by the mask when
      sampling or when some id is not suppressed, a no-speech probability
      written only on the first iteration, and no draw when greedy. */
  predicate Promised(d: Decoding, t: real, i: nat, st: LoopState, c: Decision) {
    c.Decided? ==>
      c.token < |d.mask| &&
      (t > 0.0 || Unsuppressed(d.mask) ==> d.mask[c.token].Fin?) &&
      (i > 0 ==> c.noSpeechProb == st.noSpeechProb) &&
      (t <= 0.0 ==> c.rng == st.rng)
  }

  ghost predicate Honest(d: Decoding, choose: Chooser, t: real) {
    forall i, st :: Promised(d, t, i, st, choose(i, st))
  }

  lemma ChoosesHonest(d: ReadyDecoding, features: Features, t: real)
    ensures Honest(d, Chooses(d, features, t), t)
  {
    forall i, st ensures Promised(d, t, i, st, Chooses(d, features, t)(i, st)) {
      var c := Choose(d, features, t, i, st);
    }
  }

  /** A choice made from the same variables with the generator replaced by `r`. */
  function Reseeded(c: Decision, r: Rng): Decision {
    if c.Decided? then c.(rng := r) else c
  }

  /** The generator plays no part in the choice. */
  ghost predicate IgnoresRng(choose: Chooser) {
    forall i: nat, st: LoopState, r: Rng :: choose(i, st.(rng := r)) == Reseeded(choose(i, st), r)
  }

  /** A greedy choice does not depend on the generator. */
  lemma {:induction false} GreedyChoiceIgnoresRng(d: ReadyDecoding, features: Features, t: real)
    requires t <= 0.0
    ensures IgnoresRng(Chooses(d, features, t))
  {
    forall i: nat, st: LoopState, r: Rng
      ensures Choose(d, features, t, i, st.(rng := r)) == Reseeded(Choose(d, features, t, i, st), r)
    {
    }
  }

  /** Whether the loop breaks after pushing a token. */
  predicate Stops(d: Decoding, tokens: seq<nat>) {
    |tokens| > 0 && (tokens[|tokens| - 1] == d.specials.eot || |tokens| > d.model.config.maxTargetPositions)
  }

  /** How the loop ended: with its final variables, or with an error and the
      generator as it was when the failing iteration began. */
  datatype LoopEnd = Finished(state: LoopState) | Aborted(error: Error, rng: Rng)

  /** The variables after an iteration that pushed the chosen token and did
      not break: the log of the token's probability joins the running sum. */
  function Carry(d: Decoding, st: LoopState, c: Decision): LoopState
    requires c.Decided?
  {
    LoopState(st.tokens + [c.token], Add(st.sumLogprob, d.numerics.ln(c.prob)), c.noSpeechProb, c.rng)
  }

  /** The loop `for i in 0..sample_len` from iteration `i` on: push the
      chosen token, break on end of transcript or an overlong buffer, and
      otherwise add the log-probability of the token to the running sum. */
  function LoopFrom(d: Decoding, choose: Chooser, i: nat, st: LoopState): (r: LoopEnd)
    ensures r.Finished? ==> |st.tokens| <= |r.state.tokens| && r.state.tokens[..|st.tokens|] == st.tokens
    decreases SampleLen(d.model.config) - i
  {
    if i >= SampleLen(d.model.config) then Finished(st)
    else
      var c := choose(i, st);
      if c.Failed? then Aborted(c.error, st.rng)
      else if Stops(d, st.tokens + [c.token]) then
        Finished(LoopState(st.tokens + [c.token], st.sumLogprob, c.noSpeechProb, c.rng))
      else LoopFrom(d, choose, i + 1, Carry(d, st, c))
  }

  /** The loop variables before the first iteration. */
  function InitialState(d: Decoding, rng: Rng): LoopState {
    LoopState(Prompt(d.specials), Num(0.0), NaN, rng)
  }

  /** `Decoder::decode(mel, t)`. */
  function Decode(d: ReadyDecoding, mel: seq<Frame>, t: real, rng: Rng): Attempt
  {
    match d.model.encode(mel)
    case Err(e) => Attempt(Err(e), rng)
    case Ok(features) =>
      match LoopFrom(d, Chooses(d, features, t), 0, InitialState(d, rng))
      case Aborted(e, r) => Attempt(Err(e), r)
      case Finished(st) =>
        match d.tokenizer.decode(st.tokens)
        case Err(e) => Attempt(Err(e), st.rng)
        case Ok(text) =>
          Attempt(Ok(DecodingResult(st.tokens, text, DivByCount(st.sumLogprob, |st.tokens|),
                                    st.noSpeechProb, t, NaN)), st.rng)
  }

  /** End of transcript occurs among the tokens from index `from` on only as the last token. */
  predicate EotOnlyLast(tokens: seq<nat>, from: nat, eot: nat) {
    forall k | from <= k < |tokens| - 1 :: tokens[k] != eot
  }

  /** Shape of the buffer the loop leaves behind, from iteration `i` on:
      one token per iteration, at most one iteration per remaining step,
      end of transcript only as the last token, an early stop only on
      end of transcript or an overlong buffer, and no push after the buffer
      grew longer than `max_target_positions`. */
  lemma {:induction false} LoopShape(d: Decoding, choose: Chooser, i: nat, st: LoopState)
    requires i <= SampleLen(d.model.config)
    requires LoopFrom(d, choose, i, st).Finished?
    ensures var s' := LoopFrom(d, choose, i, st).state;
      var n := |st.tokens|;
      |s'.tokens| <= n + (SampleLen(d.model.config) - i) &&
      EotOnlyLast(s'.tokens, n, d.specials.eot) &&
      (|s'.tokens| < n + (SampleLen(d.model.config) - i) ==> |s'.tokens| > n && Stops(d, s'.tokens)) &&
      (|s'.tokens| > n + 1 ==> |s'.tokens| - 1 <= d.model.config.maxTargetPositions)
    decreases SampleLen(d.model.config) - i
  {
    if i < SampleLen(d.model.config) {
      var c := choose(i, st);
      var tokens := st.tokens + [c.token];
      if !Stops(d, tokens) {
        var s1 := Carry(d, st, c);
        LoopShape(d, choose, i + 1, s1);
        var s' := LoopFrom(d, choose, i + 1, s1).state;
        var n := |st.tokens|;
        assert s'.tokens[..n + 1] == tokens;
        assert s'.tokens[n] == c.token;
        if |s'.tokens| == n + 1 {
          assert s'.tokens == tokens;
        }
      }
    }
  }

  /** Every generated token is a vocabulary id, and one the mask lets
      through whenever sampling, or whenever some id is not suppressed. */
  lemma {:induction false} LoopTokens(d: Decoding, choose: Chooser, t: real, i: nat, st: LoopState)
    requires Honest(d, choose, t) && LoopFrom(d, choose, i, st).Finished?
    ensures var s' := LoopFrom(d, choose, i, st).state;
      forall k | |st.tokens| <= k < |s'.tokens| ::
        s'.tokens[k] < |d.mask| && (t > 0.0 || Unsuppressed(d.mask) ==> d.mask[s'.tokens[k]].Fin?)
    decreases SampleLen(d.model.config) - i
  {
    if i < SampleLen(d.model.config) {
      var c := choose(i, st);
      assert Promised(d, t, i, st, c);
      var tokens := st.tokens + [c.token];
      if !Stops(d, tokens) {
        var s1 := Carry(d, st, c);
        LoopTokens(d, choose, t, i + 1, s1);
        var s' := LoopFrom(d, choose, i + 1, s1).state;
        assert s'.tokens[..|tokens|] == tokens;
        assert s'.tokens[|st.tokens|] == c.token;
      }
    }
  }

  /** The no-speech probability is written only on the first iteration, and
      a greedy loop never draws from the generator. */
  lemma {:induction false} LoopKeeps(d: Decoding, choose: Chooser, t: real, i: nat, st: LoopState)
    requires Honest(d, choose, t) && LoopFrom(d, choose, i, st).Finished?
    ensures var s' := LoopFrom(d, choose, i, st).state;
      (i > 0 ==> s'.noSpeechProb == st.noSpeechProb) &&
      (t <= 0.0 ==> s'.rng == st.rng)
    decreases SampleLen(d.model.config) - i
  {
    if i < SampleLen(d.model.config) {
      var c := choose(i, st);
      assert Promised(d, t, i, st, c);
      if !Stops(d, st.tokens + [c.token]) {
        LoopKeeps(d, choose, t, i + 1, Carry(d, st, c));
      }
    }
  }

  /** When no choice depends on the generator, neither does the loop: only
      the generator it ends with differs. */
  lemma {:induction false} LoopIgnoresRng(d: Decoding, choose: Chooser, i: nat, st: LoopState, r: Rng)
    requires IgnoresRng(choose)
    ensures var a := LoopFrom(d, choose, i, st);
      var b := LoopFrom(d, choose, i, st.(rng := r));
      (a.Finished? <==> b.Finished?) &&
      (a.Finished? ==> b.state == a.state.(rng := r)) &&
      (a.Aborted? ==> b == Aborted(a.error, r))
    decreases SampleLen(d.model.config) - i
  {
    if i < SampleLen(d.model.config) {
      var c := choose(i, st);
      assert choose(i, st.(rng := r)) == Reseeded(c, r);
      if c.Decided? && !Stops(d, st.tokens + [c.token]) {
        LoopIgnoresRng(d, choose, i + 1, Carry(d, st, c), r);
        assert Carry(d, st.(rng := r), Reseeded(c, r)) == Carry(d, st, c).(rng := r);
      }
    }
  }

  /** The log-probabilities the loop adds to its running sum, in order: one
      per iteration, except the iteration that breaks out of the loop. */
  function AddedTerms(d: Decoding, choose: Chooser, i: nat, st: LoopState): seq<F64>
    decreases SampleLen(d.model.config) - i
  {
    if i >= SampleLen(d.model.config) then []
    else
      var c := choose(i, st);
      if c.Failed? || Stops(d, st.tokens + [c.token]) then []
      else [d.numerics.ln(c.prob)] + AddedTerms(d, choose, i + 1, Carry(d, st, c))
  }

  /** Left fold of `Add` over a list of terms. */
  function SumFrom(acc: F64, terms: seq<F64>): F64
    decreases |terms|
  {
    if terms == [] then acc else SumFrom(Add(acc, terms[0]), terms[1..])
  }

  /** The running sum is the initial sum plus the added terms, one term per
      generated token except a last token that broke out of the loop. */
  lemma {:induction false} LoopSum(d: Decoding, choose: Chooser, i: nat, st: LoopState)
    requires LoopFrom(d, choose, i, st).Finished?
    ensures var s' := LoopFrom(d, choose, i, st).state;
      var terms := AddedTerms(d, choose, i, st);
      var generated := |s'.tokens| - |st.tokens|;
      s'.sumLogprob == SumFrom(st.sumLogprob, terms) &&
      |terms| == generated - (if generated > 0 && Stops(d, s'.tokens) then 1 else 0)
    decreases SampleLen(d.model.config) - i
  {
    if i < SampleLen(d.model.config) {
      var c := choose(i, st);
      var tokens := st.tokens + [c.token];
      if !Stops(d, tokens) {
        var s1 := Carry(d, st, c);
        LoopSum(d, choose, i + 1, s1);
        var s' := LoopFrom(d, choose, i + 1, s1).state;
        if |s'.tokens| == |tokens| {
          assert s'.tokens == s'.tokens[..|tokens|] == tokens;
        }
      }
    }
  }

  /** The softmax probability of a token with a finite logit is at most one,
      so its log is non-positive. (Over a row whose every logit is negative
      infinity, candle's softmax gives NaN; nothing is assumed there.) */
  ghost predicate LogsOfProbabilities(n: Numerics) {
    forall xs: seq<Logit>, k: nat | k < |xs| && xs[k].Fin? :: NonPositive(n.ln(n.softmaxAt(xs, k)))
  }

  lemma {:induction false} SumNonPositive(acc: F64, terms: seq<F64>)
    requires NonPositive(acc) && forall k | 0 <= k < |terms| :: NonPositive(terms[k])
    ensures NonPositive(SumFrom(acc, terms))
    decreases |terms|
  {
    if terms != [] {
      AddNonPositive(acc, terms[0]);
      SumNonPositive(Add(acc, terms[0]), terms[1..]);
    }
  }

  /** Every choice carries a probability whose log is non-positive. */
  ghost predicate ScoredByProbabilities(d: Decoding, choose: Chooser) {
    forall i, st :: choose(i, st).Decided? ==> NonPositive(d.numerics.ln(choose(i, st).prob))
  }

  /** The probability a choice carries is the softmax value of a token whose
      masked logit is finite, when sampling or when some id is not suppressed. */
  lemma {:induction false} ChoosesScored(d: ReadyDecoding, features: Features, t: real)
    requires LogsOfProbabilities(d.numerics) && (t > 0.0 || Unsuppressed(d.mask))
    ensures ScoredByProbabilities(d, Chooses(d, features, t))
  {
    forall i: nat, st: LoopState | Chooses(d, features, t)(i, st).Decided?
      ensures NonPositive(d.numerics.ln(Chooses(d, features, t)(i, st).prob))
    {
      var c := Choose(d, features, t, i, st);
      var ys := d.model.forward(features, st.tokens, i == 0).value;
      var logits := ApplyMask(ys.last, d.mask);
      assert c.prob == d.numerics.softmaxAt(logits, c.token) && logits[c.token].Fin?;
    }
  }

  lemma {:induction false} AddedTermsNonPositive(d: Decoding, choose: Chooser, i: nat, st: LoopState)
    requires ScoredByProbabilities(d, choose)
    ensures forall k | 0 <= k < |AddedTerms(d, choose, i, st)| :: NonPositive(AddedTerms(d, choose, i, st)[k])
    decreases SampleLen(d.model.config) - i
  {
    if i < SampleLen(d.model.config) {
      var c := choose(i, st);
      if c.Decided? && !Stops(d, st.tokens + [c.token]) {
        AddedTermsNonPositive(d, choose, i + 1, Carry(d, st, c));
      }
    }
  }

  /** The encoder output an attempt worked from (only meaningful when encoding succeeded). */
  function Encoded(d: Decoding, mel: seq<Frame>): Features {
    match d.model.encode(mel)
    case Ok(f) => f
    case Err(_) => []
  }

  /** A successful attempt's tokens: the prompt, then at most
      `max_target_positions / 2` generated tokens, each a vocabulary id that
      the mask lets through (when sampling, or when some id is not
      suppressed), with end of transcript only as the last one, an early
      stop only after end of transcript or an overlong buffer, and no token
      after the buffer grew longer than `max_target_positions`. The result
      records the temperature, and the compression ratio is NaN. */
  lemma {:induction false} DecodeTokens(d: ReadyDecoding, mel: seq<Frame>, t: real, rng: Rng)
    requires Decode(d, mel, t, rng).result.Ok?
    ensures var dr := Decode(d, mel, t, rng).result.value;
      var p := Prompt(d.specials);
      var steps := SampleLen(d.model.config);
      |p| <= |dr.tokens| <= |p| + steps && dr.tokens[..|p|] == p &&
      EotOnlyLast(dr.tokens, |p|, d.specials.eot) &&
      (|dr.tokens| < |p| + steps ==> |dr.tokens| > |p| && Stops(d, dr.tokens)) &&
      (|dr.tokens| > |p| + 1 ==> |dr.tokens| - 1 <= d.model.config.maxTargetPositions) &&
      (forall k | |p| <= k < |dr.tokens| ::
        dr.tokens[k] < |d.mask| && (t > 0.0 || Unsuppressed(d.mask) ==> d.mask[dr.tokens[k]].Fin?)) &&
      dr.temperature == t && dr.compressionRatio == NaN
  {
    var f := Encoded(d, mel);
    ChoosesHonest(d, f, t);
    LoopShape(d, Chooses(d, f, t), 0, InitialState(d, rng));
    LoopTokens(d, Chooses(d, f, t), t, 0, InitialState(d, rng));
  }

  /** With a context of at least twice the prompt, the buffer never grows past
      `max_target_positions`. */
  lemma {:induction false} DecodeFitsContext(d: ReadyDecoding, mel: seq<Frame>, t: real, rng: Rng)
    requires Decode(d, mel, t, rng).result.Ok?
    requires d.model.config.maxTargetPositions >= 2 * |Prompt(d.specials)|
    ensures |Decode(d, mel, t, rng).result.value.tokens| <= d.model.config.maxTargetPositions
  {
    DecodeTokens(d, mel, t, rng);
  }

  /** The no-speech probability is the softmax, at the no-speech id, of the
      first-position logits of the first decoder call; NaN when the loop has
      no iteration at all. */
  lemma {:induction false} DecodeNoSpeech(d: ReadyDecoding, mel: seq<Frame>, t: real, rng: Rng)
    requires Decode(d, mel, t, rng).result.Ok?
    ensures var dr := Decode(d, mel, t, rng).result.value;
      var first := d.model.forward(Encoded(d, mel), Prompt(d.specials), true);
      (SampleLen(d.model.config) == 0 ==> dr.noSpeechProb == NaN) &&
      (SampleLen(d.model.config) > 0 ==>
        first.Ok? && d.specials.noSpeech < |first.value.first| &&
        dr.noSpeechProb == d.numerics.softmaxAt(Lift(first.value.first), d.specials.noSpeech))
  {
    var f := Encoded(d, mel);
    var st := InitialState(d, rng);
    if SampleLen(d.model.config) > 0 {
      var c := Choose(d, f, t, 0, st);
      assert Chooses(d, f, t)(0, st) == c;
      if c.Decided? && !Stops(d, st.tokens + [c.token]) {
        ChoosesHonest(d, f, t);
        LoopKeeps(d, Chooses(d, f, t), t, 1, Carry(d, st, c));
      }
    }
  }

  /** The average log-probability divides the sum of the added terms by the
      whole buffer length, prompt included; it is non-positive when the
      kernels deliver log-probabilities for finite logits and every chosen
      token has one (when sampling, or when some id is not suppressed). */
  lemma {:induction false} DecodeScore(d: ReadyDecoding, mel: seq<Frame>, t: real, rng: Rng)
    requires Decode(d, mel, t, rng).result.Ok?
    ensures var dr := Decode(d, mel, t, rng).result.value;
      var terms := AddedTerms(d, Chooses(d, Encoded(d, mel), t), 0, InitialState(d, rng));
      var generated := |dr.tokens| - |Prompt(d.specials)|;
      dr.avgLogprob == DivByCount(SumFrom(Num(0.0), terms), |dr.tokens|) &&
      |terms| == generated - (if generated > 0 && Stops(d, dr.tokens) then 1 else 0) &&
      (LogsOfProbabilities(d.numerics) && (t > 0.0 || Unsuppressed(d.mask)) ==> NonPositive(dr.avgLogprob))
  {
    var f := Encoded(d, mel);
    var choose := Chooses(d, f, t);
    var st := InitialState(d, rng);
    LoopSum(d, choose, 0, st);
    if LogsOfProbabilities(d.numerics) && (t > 0.0 || Unsuppressed(d.mask)) {
      ChoosesScored(d, f, t);
      AddedTermsNonPositive(d, choose, 0, st);
      var terms := AddedTerms(d, choose, 0, st);
      SumNonPositive(Num(0.0), terms);
      DivNonPositive(SumFrom(Num(0.0), terms), |Decode(d, mel, t, rng).result.value.tokens|);
    }
  }

  /** Greedy decoding is deterministic: its outcome does not depend on the
      generator, which it leaves as it found it. */
  lemma {:induction false} GreedyDeterministic(d: ReadyDecoding, mel: seq<Frame>, t: real, r1: Rng, r2: Rng)
    requires t <= 0.0
    ensures Decode(d, mel, t, r1).result == Decode(d, mel, t, r2).result
    ensures Decode(d, mel, t, r1).rng == r1
  {
    var f := Encoded(d, mel);
    var choose := Chooses(d, f, t);
    GreedyChoiceIgnoresRng(d, f, t);
    LoopIgnoresRng(d, choose, 0, InitialState(d, r1), r2);
    LoopIgnoresRng(d, choose, 0, InitialState(d, r1), r1);
    assert InitialState(d, r1).(rng := r1) == InitialState(d, r1);
    assert InitialState(d, r1).(rng := r2) == InitialState(d, r2);
    if LoopFrom(d, choose, 0, InitialState(d, r1)).Finished? {
      ChoosesHonest(d, f, t);
      LoopKeeps(d, choose, t, 0, InitialState(d, r1));
    }
  }
}
