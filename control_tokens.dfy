/** The special-token table and the suppression mask that `Decoder::new`
    builds once per model and tokenizer. */
module ControlTokens {
  import opened Floats
  import opened Interfaces

  /** The control-token ids a decoder holds. */
  datatype SpecialTokens = SpecialTokens(
    sot: nat,
    language: Option<nat>,
    transcribe: nat,
    eot: nat,
    noSpeech: nat,
    noTimestamps: nat)

  /** What construction produces besides the model, tokenizer and rng. */
  datatype Tables = Tables(specials: SpecialTokens, mask: seq<Logit>)

  /** `token_id`: the tokenizer's id for `name`, or an error naming it. */
  function TokenId(tok: Tokenizer, name: string): (r: Result<nat>)
    ensures r.Ok? <==> name in tok.ids
    ensures r.Ok? ==> r.value == tok.ids[name]
    ensures r.Err? ==> r.error == MissingToken(name)
  {
    if name in tok.ids then Ok(tok.ids[name]) else Err(MissingToken(name))
  }

  /** `names.iter().find_map(|n| token_id(tok, n).ok())`: the id of the first
      name, in list order, that the tokenizer knows. */
  function FirstKnown(tok: Tokenizer, names: seq<string>): (r: Option<nat>)
    ensures r.None? <==> forall k | 0 <= k < |names| :: names[k] !in tok.ids
    ensures r.Some? ==> exists k | 0 <= k < |names| ::
      names[k] in tok.ids && r.value == tok.ids[names[k]] &&
      forall j | 0 <= j < k :: names[j] !in tok.ids
  {
    if names == [] then None
    else match TokenId(tok, names[0])
      case Ok(id) => Some(id)
      case Err(_) =>
        var r := FirstKnown(tok, names[1..]);
        assert forall k | 1 <= k < |names| :: names[k] == names[1..][k - 1];
        if r.Some? then
          ghost var k :| 0 <= k < |names[1..]| && names[1..][k] in tok.ids &&
            r.value == tok.ids[names[1..][k]] && forall j | 0 <= j < k :: names[1..][j] !in tok.ids;
          assert names[k + 1] in tok.ids && forall j | 0 <= j < k + 1 :: names[j] !in tok.ids;
          r
        else r
  }

  /** The suppression mask: one `f32` per vocabulary id, negative infinity
      for the configured suppressed ids and zero for every other id. */
  function SuppressionMask(cfg: Config): (mask: seq<Logit>)
    ensures |mask| == cfg.vocabSize
    ensures forall i | 0 <= i < |mask| :: mask[i] == NegInf <==> i in cfg.suppressTokens
    ensures forall i | 0 <= i < |mask| :: mask[i] == NegInf || mask[i] == Fin(0)
  {
    seq(cfg.vocabSize, i requires 0 <= i => if i as nat in cfg.suppressTokens then NegInf else Fin(0))
  }

  /** The names `Decoder::new` requires, in the order it looks them up. */
  const RequiredNames: seq<string> := [NoTimestampsToken, SotToken, TranscribeToken, EotToken]

  /** Everything `Decoder::new` computes and the only ways it can fail:
      the first required name that is missing (in lookup order), or else
      no no-speech candidate at all. The no-speech id is that of
      `<|nocaptions|>` when it resolves, and that of `<|nospeech|>` only when
      the first does not. The language id is taken as given. */
  function Build(cfg: Config, tok: Tokenizer, language: Option<nat>): (r: Result<Tables>)
    ensures r.Ok? <==>
      NoTimestampsToken in tok.ids && SotToken in tok.ids && TranscribeToken in tok.ids && EotToken in tok.ids &&
      (exists k | 0 <= k < |NoSpeechTokens| :: NoSpeechTokens[k] in tok.ids)
    ensures r.Ok? ==> r.value == Tables(
      SpecialTokens(tok.ids[SotToken], language, tok.ids[TranscribeToken], tok.ids[EotToken],
                    FirstKnown(tok, NoSpeechTokens).value, tok.ids[NoTimestampsToken]),
      SuppressionMask(cfg))
    ensures r.Ok? ==> var ns := r.value.specials.noSpeech;
      (NoSpeechTokens[0] in tok.ids && ns == tok.ids[NoSpeechTokens[0]]) ||
      (NoSpeechTokens[0] !in tok.ids && NoSpeechTokens[1] in tok.ids && ns == tok.ids[NoSpeechTokens[1]])
    ensures r.Err? ==>
      (exists k | 0 <= k < |RequiredNames| ::
         RequiredNames[k] !in tok.ids && r.error == MissingToken(RequiredNames[k]) &&
         forall j | 0 <= j < k :: RequiredNames[j] in tok.ids) ||
      ((forall k | 0 <= k < |RequiredNames| :: RequiredNames[k] in tok.ids) &&
       r.error == NoSpeechTokenUnavailable)
  {
    assert RequiredNames[0] == NoTimestampsToken && RequiredNames[1] == SotToken;
    assert RequiredNames[2] == TranscribeToken && RequiredNames[3] == EotToken;
    var noTimestamps :- TokenId(tok, NoTimestampsToken);
    var mask := SuppressionMask(cfg);
    var sot :- TokenId(tok, SotToken);
    var transcribe :- TokenId(tok, TranscribeToken);
    var eot :- TokenId(tok, EotToken);
    match FirstKnown(tok, NoSpeechTokens)
    case None => Err(NoSpeechTokenUnavailable)
    case Some(noSpeech) =>
      Ok(Tables(SpecialTokens(sot, language, transcribe, eot, noSpeech, noTimestamps), mask))
  }
}
