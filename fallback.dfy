/** The temperature fallback ladder (`Decoder::decode_with_fallback`). */
module Fallback {
  import opened Floats
  import opened Interfaces
  import opened DecodeAttempt

  /** The quality gate that asks for a retry at the next temperature. */
  predicate NeedsFallback(dr: DecodingResult) {
    Gt(dr.compressionRatio, CompressionRatioThreshold) || Lt(dr.avgLogprob, LogprobThreshold)
  }

  /** A non-final rung returns its result when it passes the gate, or when
      the window is confidently silent. */
  predicate Acceptable(dr: DecodingResult) {
    !NeedsFallback(dr) || Gt(dr.noSpeechProb, NoSpeechThreshold)
  }

  /** An attempt that a non-final rung would return. */
  predicate Good(a: Attempt) {
    a.result.Ok? && Acceptable(a.result.value)
  }

  /** The ladder from rung `k` on: a non-final rung returns a good attempt
      and otherwise (a rejected result or an error) moves on; the final rung
      returns whatever its attempt gives. */
  function FallbackFrom(d: ReadyDecoding, segment: seq<Frame>, k: nat, rng: Rng): Attempt
    requires k < |Temperatures|
    decreases |Temperatures| - k
  {
    var a := Decode(d, segment, Temperatures[k], rng);
    if k == |Temperatures| - 1 then a
    else if Good(a) then a
    else FallbackFrom(d, segment, k + 1, a.rng)
  }

  function DecodeWithFallback(d: ReadyDecoding, segment: seq<Frame>, rng: Rng): Attempt
  {
    FallbackFrom(d, segment, 0, rng)
  }

  /** The generator when rung `k` starts, had every earlier rung run. */
  function RngBefore(d: ReadyDecoding, segment: seq<Frame>, rng: Rng, k: nat): Rng
    requires k <= |Temperatures|
  {
    if k == 0 then rng
    else Decode(d, segment, Temperatures[k - 1], RngBefore(d, segment, rng, k - 1)).rng
  }

  /** The attempt rung `k` makes, had every earlier rung run. */
  function Rung(d: ReadyDecoding, segment: seq<Frame>, rng: Rng, k: nat): Attempt
    requires k < |Temperatures|
  {
    Decode(d, segment, Temperatures[k], RngBefore(d, segment, rng, k))
  }

  /** The ladder returns the attempt of the first rung that is good, or of
      the last rung when none before it is: earlier errors and rejected
      results are swallowed, and no rung after the returned one runs. */
  lemma {:induction false} FallbackIsFirstGoodRung(d: ReadyDecoding, segment: seq<Frame>, rng: Rng)
    ensures exists j | 0 <= j < |Temperatures| ::
      DecodeWithFallback(d, segment, rng) == Rung(d, segment, rng, j) &&
      (j == |Temperatures| - 1 || Good(Rung(d, segment, rng, j))) &&
      forall k | 0 <= k < j :: !Good(Rung(d, segment, rng, k))
  {
    FallbackFromRung(d, segment, rng, 0);
  }

  lemma {:induction false} FallbackFromRung(d: ReadyDecoding, segment: seq<Frame>, rng: Rng, m: nat)
    requires m < |Temperatures|
    requires forall k | 0 <= k < m :: !Good(Rung(d, segment, rng, k))
    ensures exists j | m <= j < |Temperatures| ::
      FallbackFrom(d, segment, m, RngBefore(d, segment, rng, m)) == Rung(d, segment, rng, j) &&
      (j == |Temperatures| - 1 || Good(Rung(d, segment, rng, j))) &&
      forall k | 0 <= k < j :: !Good(Rung(d, segment, rng, k))
    decreases |Temperatures| - m
  {
    var a := Rung(d, segment, rng, m);
    var r := FallbackFrom(d, segment, m, RngBefore(d, segment, rng, m));
    if m == |Temperatures| - 1 || Good(a) {
      assert r == a;
    } else {
      assert r == FallbackFrom(d, segment, m + 1, RngBefore(d, segment, rng, m + 1));
      assert forall k | 0 <= k < m + 1 :: !Good(Rung(d, segment, rng, k));
      FallbackFromRung(d, segment, rng, m + 1);
    }
  }

  /** An error leaves the ladder only from the last rung. */
  lemma {:induction false} FallbackErrorIsLastRung(d: ReadyDecoding, segment: seq<Frame>, rng: Rng)
    requires DecodeWithFallback(d, segment, rng).result.Err?
    ensures DecodeWithFallback(d, segment, rng) == Rung(d, segment, rng, |Temperatures| - 1)
    ensures forall k | 0 <= k < |Temperatures| - 1 :: !Good(Rung(d, segment, rng, k))
  {
    FallbackIsFirstGoodRung(d, segment, rng);
  }

  /** A returned result passed the gate, or came from the last rung at the
      highest temperature. */
  lemma {:induction false} FallbackResultAccepted(d: ReadyDecoding, segment: seq<Frame>, rng: Rng)
    requires DecodeWithFallback(d, segment, rng).result.Ok?
    ensures var dr := DecodeWithFallback(d, segment, rng).result.value;
      Acceptable(dr) || dr.temperature == Temperatures[|Temperatures| - 1]
  {
    FallbackIsFirstGoodRung(d, segment, rng);
    var j :| 0 <= j < |Temperatures| &&
      DecodeWithFallback(d, segment, rng) == Rung(d, segment, rng, j) &&
      (j == |Temperatures| - 1 || Good(Rung(d, segment, rng, j)));
    DecodeTokens(d, segment, Temperatures[j], RngBefore(d, segment, rng, j));
  }

  /** Because an attempt's compression ratio is NaN, the gate reduces to the
      average log-probability. */
  lemma {:induction false} GateIgnoresCompression(d: ReadyDecoding, segment: seq<Frame>, t: real, rng: Rng)
    requires Decode(d, segment, t, rng).result.Ok?
    ensures var dr := Decode(d, segment, t, rng).result.value;
      (NeedsFallback(dr) <==> Lt(dr.avgLogprob, LogprobThreshold)) &&
      (Acceptable(dr) <==> !Lt(dr.avgLogprob, LogprobThreshold) || Gt(dr.noSpeechProb, NoSpeechThreshold))
  {
    DecodeTokens(d, segment, t, rng);
  }
}
