/**
 * Posting a chirp: the length rule, the profanity filter and the order of
 * the checks before the chirp is stored under the authenticated user.
 */
module Chirps {

  import opened Wrappers
  import Text
  import Uuid
  import Auth
  import Database
  import opened Server

  /** The longest body accepted, in bytes. */
  const MaxChirpLength: int := 140

  /** What replaces a banned word. */
  const Mask: string := "****"

  /** The chirp request body. */
  datatype ChirpParams = ChirpParams(body: string)

  /** A word is banned when, lower-cased and trimmed, it is exactly one of the three words. */
  predicate IsProfane(word: string)
    ensures IsProfane(word) ==> |word| >= 6
  {
    var w := Text.TrimSpace(Text.ToLower(word));
    w == "kerfuffle" || w == "sharbert" || w == "fornax"
  }

  /** One word of the output: the mask for a banned word, the word itself otherwise. */
  function Censor(word: string): (r: string)
    ensures r == word || r == Mask
    ensures !IsProfane(r)
  {
    MaskClean();
    if IsProfane(word) then Mask else word
  }

  /** The words after censoring, one for one. */
  function CensorWords(words: seq<string>): (r: seq<string>)
    ensures |r| == |words|
    ensures forall i :: 0 <= i < |words| ==> r[i] == Censor(words[i])
  {
    seq(|words|, i requires 0 <= i < |words| => Censor(words[i]))
  }

  /** The cleaned body: split on single spaces, censor each word, join with single spaces. */
  function Cleaned(body: string): (r: string)
    ensures Text.Split(r, ' ') == CensorWords(Text.Split(body, ' '))
  {
    Text.SplitPiecesFree(body, ' ');
    CensorWordsFree(Text.Split(body, ' '));
    Text.SplitJoin(CensorWords(Text.Split(body, ' ')), ' ');
    Text.Join(CensorWords(Text.Split(body, ' ')), ' ')
  }

  /** Censoring the first `i + 1` words extends the censoring of the first `i` by one word. */
  lemma CensorWordsSnoc(words: seq<string>, i: nat)
    requires i < |words|
    ensures CensorWords(words[..i + 1]) == CensorWords(words[..i]) + [Censor(words[i])]
  {
  }

  /** `replaceProfane`: builds the censored words one at a time, then joins them. */
  method ReplaceProfane(body: string) returns (r: string)
    ensures r == Cleaned(body)
  {
    var words := Text.Split(body, ' ');
    var newBody: seq<string> := [];
    var i := 0;
    while i < |words|
      invariant 0 <= i <= |words|
      invariant newBody == CensorWords(words[..i])
    {
      var w := Text.TrimSpace(Text.ToLower(words[i]));
      if w == "kerfuffle" || w == "sharbert" || w == "fornax" {
        newBody := newBody + [Mask];
      } else {
        newBody := newBody + [words[i]];
      }
      CensorWordsSnoc(words, i);
      i := i + 1;
    }
    assert words[..i] == words;
    r := Text.Join(newBody, ' ');
  }

  /** The mask is not itself banned. */
  lemma MaskClean()
    ensures !IsProfane(Mask)
  {
    assert Text.ToLower(Mask) == Mask;
    Text.TrimSpaceNoSpace(Mask);
  }

  /** Every censored word is free of spaces when every input word is. */
  lemma CensorWordsFree(words: seq<string>)
    requires forall i :: 0 <= i < |words| ==> Text.Free(words[i], ' ')
    ensures forall i :: 0 <= i < |words| ==> Text.Free(CensorWords(words)[i], ' ')
  {
  }

  /**
   * The cleaned body splits into the censored words of the input: as many
   * fields as the input, each the mask exactly when the input word is banned
   * and otherwise the input word verbatim.
   */
  lemma CleanedWords(body: string)
    ensures Text.Split(Cleaned(body), ' ') == CensorWords(Text.Split(body, ' '))
    ensures |Text.Split(Cleaned(body), ' ')| == |Text.Split(body, ' ')|
    ensures forall i :: 0 <= i < |Text.Split(body, ' ')| ==>
      Text.Split(Cleaned(body), ' ')[i] == (if IsProfane(Text.Split(body, ' ')[i]) then Mask else Text.Split(body, ' ')[i])
  {
  }

  /** A body with no banned word comes back unchanged. */
  lemma CleanUnchanged(body: string)
    requires forall i :: 0 <= i < |Text.Split(body, ' ')| ==> !IsProfane(Text.Split(body, ' ')[i])
    ensures Cleaned(body) == body
  {
    var words := Text.Split(body, ' ');
    assert CensorWords(words) == words;
    Text.JoinSplit(body, ' ');
  }

  /** Cleaning twice is cleaning once, because the mask is not banned. */
  lemma CleanIdempotent(body: string)
    ensures Cleaned(Cleaned(body)) == Cleaned(body)
  {
    var words := Text.Split(body, ' ');
    CleanedWords(body);
    MaskClean();
    var censored := CensorWords(words);
    assert CensorWords(censored) == censored;
  }

  /** The match is exact: "kerfuffle!" is kept. */
  lemma PunctuatedWordKept()
    ensures Cleaned("kerfuffle!") == "kerfuffle!"
  {
    var w := "kerfuffle!";
    assert Text.ToLower(w)[9] == '!';
    Text.TrimSpaceNoSpace(Text.ToLower(w));
    Text.SplitWord(w, ' ');
  }

  /** The match ignores case. */
  lemma CapitalisedWordCensored()
    ensures Cleaned("Sharbert") == Mask
  {
    var w := "Sharbert";
    assert Text.ToLower(w) == "sharbert";
    Text.TrimSpaceNoSpace("sharbert");
    Text.SplitWord(w, ' ');
  }

  /** For an ASCII body the byte limit is a character limit. */
  lemma AsciiLimit(body: string)
    requires Text.IsAscii(body)
    ensures Text.ByteLen(body) > MaxChirpLength <==> |body| > MaxChirpLength
  {
    Text.ByteLenAscii(body);
  }

  /**
   * `createChirp`. The checks run in order: the body decodes, it is at most
   * 140 bytes, the `Authorization` header carries a bearer token, the token
   * validates. Only then is the cleaned body stored, under the user the
   * token names; `chirpId` is the id the store generates.
   */
  method CreateChirp(cfg: ApiConfig, params: Option<ChirpParams>, authorization: string, now: int, chirpId: Uuid.UUID)
    returns (resp: Response)
    requires cfg.Valid()
    modifies cfg.sql
    ensures cfg.Valid()
    ensures cfg.sql.users == old(cfg.sql.users) && cfg.sql.refreshTokens == old(cfg.sql.refreshTokens)
    ensures resp.status != StatusCreated ==> resp.body.ErrorBody? && cfg.sql.chirps == old(cfg.sql.chirps)
    ensures params.None? ==> resp == Response(StatusBadRequest, ErrorBody("Something went wrong"))
    ensures params.Some? && Text.ByteLen(params.value.body) > MaxChirpLength ==>
      resp == Response(StatusBadRequest, ErrorBody("Chirp is too long"))
    ensures params.Some? && Text.ByteLen(params.value.body) <= MaxChirpLength ==>
      var bearer := Auth.GetBearerToken(authorization);
      var user := Auth.ValidateJWT(cfg.jws, bearer.0, cfg.secret, now);
      && (bearer.1.Some? || user.1.Some? ==> resp == Response(StatusUnauthorized, ErrorBody("Something went wrong")))
      && (bearer.1.None? && user.1.None? && chirpId in old(cfg.sql.chirps) ==>
            resp == Response(StatusBadRequest, ErrorBody("Something went wrong")))
      && (bearer.1.None? && user.1.None? && chirpId !in old(cfg.sql.chirps) ==>
            var chirp := Database.Chirp(chirpId, now, now, Cleaned(params.value.body), user.0);
            && resp == Response(StatusCreated, ChirpBody(chirpId, now, now, chirp.body, user.0))
            && cfg.sql.chirps == old(cfg.sql.chirps)[chirpId := chirp])
  {
    if params.None? {
      return WriteErrorJson(None, "Something went wrong");
    }
    if Text.ByteLen(params.value.body) > MaxChirpLength {
      return WriteErrorJson(None, "Chirp is too long");
    }
    var cleanedBody := ReplaceProfane(params.value.body);
    var bearer := Auth.GetBearerToken(authorization);
    var token := bearer.0;
    if bearer.1.Some? {
      return WriteErrorJson(Some(StatusUnauthorized), "Something went wrong");
    }
    var validated := Auth.ValidateJWT(cfg.jws, token, cfg.secret, now);
    var userID := validated.0;
    if validated.1.Some? {
      return WriteErrorJson(Some(StatusUnauthorized), "Something went wrong");
    }
    var chirp := cfg.sql.CreateChirp(chirpId, cleanedBody, userID, now);
    if chirp.None? {
      return WriteErrorJson(None, "Something went wrong");
    }
    var c := chirp.value;
    resp := WriteSuccessJson(ChirpBody(c.id, c.createdAt, c.updatedAt, cleanedBody, userID), Some(StatusCreated));
  }
}
