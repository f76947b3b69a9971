/**
 * Shaping of the upstream match list (`mapMatch` and the part of
 * `fetchMatches` after the HTTP call, in backend/src/services/footballApiService.ts).
 *
 * The upstream reply is an input: its status, its status text, its body as
 * text (absent when reading it fails) and its body as JSON (absent when it
 * does not parse). Scalar fields of the raw records are taken as present; the
 * nested team, area and competition objects may be missing, and reading a
 * field of a missing one throws in the source, which fails the whole call.
 */
module FootballApi {
  import opened Wrappers
  import opened MatchTypes

  datatype RawTeam = RawTeam(id: int, name: string, shortName: string, crest: string, extra: Dict)

  datatype RawArea = RawArea(id: int, name: string, code: string, flag: string, extra: Dict)

  datatype RawCompetition = RawCompetition(id: int, name: string, code: string, emblem: string, extra: Dict)

  /** One fixture as the provider sends it; `extra` stands for the fields the projection drops. */
  datatype RawMatch = RawMatch(
    id: int,
    utcDate: string,
    homeTeam: Option<RawTeam>,
    awayTeam: Option<RawTeam>,
    area: Option<RawArea>,
    competition: Option<RawCompetition>,
    extra: Dict)

  /** The parsed JSON body of the provider's match list. */
  datatype RawMatchesBody = RawMatchesBody(filters: Option<Dict>, resultSet: Option<Dict>, matches: Option<seq<RawMatch>>)

  datatype UpstreamResponse = UpstreamResponse(
    status: nat,
    statusText: string,
    bodyText: Option<string>,
    json: Option<RawMatchesBody>)

  datatype ApiError =
    | UpstreamHttpError(status: nat, body: string)  // a non-2xx reply
    | InvalidJson                                   // `response.json()` rejected
    | MalformedUpstreamData                         // a fixture lacks a nested object

  /** `response.ok`. */
  predicate IsOk(status: nat)
    ensures IsOk(status) <==> status / 100 == 2
  {
    200 <= status <= 299
  }

  /** A raw fixture carries all four nested objects. */
  predicate Complete(raw: RawMatch) {
    raw.homeTeam.Some? && raw.awayTeam.Some? && raw.area.Some? && raw.competition.Some?
  }

  function TeamOf(raw: RawTeam): Team {
    Team(raw.id, raw.name, raw.shortName, raw.crest)
  }

  /** `mapMatch`: a field-by-field projection; `None` where the source would throw. */
  function MapMatch(raw: RawMatch): (r: Option<Match>)
    ensures r.Some? <==> Complete(raw)
    ensures r.Some? ==> r.value.id == raw.id && r.value.utcDate == raw.utcDate
    ensures r.Some? ==>
      var home := raw.homeTeam.value;
      r.value.homeTeam.id == home.id && r.value.homeTeam.name == home.name &&
      r.value.homeTeam.shortName == home.shortName && r.value.homeTeam.crest == home.crest
    ensures r.Some? ==>
      var away := raw.awayTeam.value;
      r.value.awayTeam.id == away.id && r.value.awayTeam.name == away.name &&
      r.value.awayTeam.shortName == away.shortName && r.value.awayTeam.crest == away.crest
    ensures r.Some? ==>
      var area := raw.area.value;
      r.value.area.id == area.id && r.value.area.name == area.name &&
      r.value.area.code == area.code && r.value.area.flag == area.flag
    ensures r.Some? ==>
      var competition := raw.competition.value;
      r.value.competition.id == competition.id && r.value.competition.name == competition.name &&
      r.value.competition.code == competition.code && r.value.competition.emblem == competition.emblem
  {
    match (raw.homeTeam, raw.awayTeam, raw.area, raw.competition)
    case (Some(home), Some(away), Some(area), Some(competition)) =>
      Some(Match(
        raw.id,
        raw.utcDate,
        TeamOf(home),
        TeamOf(away),
        Area(area.id, area.name, area.code, area.flag),
        Competition(competition.id, competition.name, competition.code, competition.emblem)))
    case _ => None
  }

  /** A raw fixture that carries exactly the fields of `m`, plus arbitrary extra fields. */
  function Embed(m: Match, extra: Dict): RawMatch {
    RawMatch(
      m.id,
      m.utcDate,
      Some(RawTeam(m.homeTeam.id, m.homeTeam.name, m.homeTeam.shortName, m.homeTeam.crest, extra)),
      Some(RawTeam(m.awayTeam.id, m.awayTeam.name, m.awayTeam.shortName, m.awayTeam.crest, extra)),
      Some(RawArea(m.area.id, m.area.name, m.area.code, m.area.flag, extra)),
      Some(RawCompetition(m.competition.id, m.competition.name, m.competition.code, m.competition.emblem, extra)),
      extra)
  }

  /** The projection recovers every match from a raw record that carries it, whatever else it carries. */
  lemma MapMatchRecoversEmbedded(m: Match, extra: Dict)
    ensures MapMatch(Embed(m, extra)) == Some(m)
  {
  }

  /** `(data.matches ?? []).map(mapMatch)`: all fixtures mapped in order, or a failure if any one is malformed. */
  function MapAll(raws: seq<RawMatch>): (r: Option<seq<Match>>)
    ensures r.Some? <==> forall i :: 0 <= i < |raws| ==> Complete(raws[i])
    ensures r.Some? ==> |r.value| == |raws| && forall i :: 0 <= i < |raws| ==> MapMatch(raws[i]) == Some(r.value[i])
  {
    if raws == [] then Some([])
    else
      match MapMatch(raws[0])
      case None => None
      case Some(first) =>
        match MapAll(raws[1..])
        case None =>
          assert forall i :: 0 <= i < |raws[1..]| ==> raws[1..][i] == raws[i + 1];
          None
        case Some(rest) =>
          assert forall i :: 0 < i < |raws| ==> raws[i] == raws[1..][i - 1];
          Some([first] + rest)
  }

  /** The text after the status in the error message: the body, or the status text when it cannot be read. */
  function ErrorBody(response: UpstreamResponse): (text: string)
    ensures response.bodyText.Some? ==> text == response.bodyText.value
    ensures response.bodyText.None? ==> text == response.statusText
  {
    match response.bodyText
    case Some(text) => text
    case None => response.statusText
  }

  /** The result `fetchMatches` returns or throws, given the provider's reply. */
  function FetchMatches(response: UpstreamResponse): (r: Result<MatchesResponse, ApiError>)
    ensures !IsOk(response.status) ==> r == Failure(UpstreamHttpError(response.status, ErrorBody(response)))
    ensures IsOk(response.status) && response.json.None? ==> r == Failure(InvalidJson)
    ensures r.Success? <==> (IsOk(response.status) && response.json.Some? &&
      var body := response.json.value;
      var raws := if body.matches.Some? then body.matches.value else [];
      forall i :: 0 <= i < |raws| ==> Complete(raws[i]))
    ensures r.Success? ==>
      var body := response.json.value;
      var raws := if body.matches.Some? then body.matches.value else [];
      (body.filters.None? ==> r.value.filters == map[]) &&
      (body.filters.Some? ==> r.value.filters == body.filters.value) &&
      (body.resultSet.None? ==> r.value.resultSet == map[]) &&
      (body.resultSet.Some? ==> r.value.resultSet == body.resultSet.value) &&
      |r.value.matches| == |raws| &&
      forall i :: 0 <= i < |raws| ==> MapMatch(raws[i]) == Some(r.value.matches[i])
    ensures r == Failure(MalformedUpstreamData) <==>
      IsOk(response.status) && response.json.Some? &&
      var body := response.json.value;
      var raws := if body.matches.Some? then body.matches.value else [];
      exists i :: 0 <= i < |raws| && !Complete(raws[i])
  {
    if !IsOk(response.status) then Failure(UpstreamHttpError(response.status, ErrorBody(response)))
    else
      match response.json
      case None => Failure(InvalidJson)
      case Some(body) =>
        var filters := if body.filters.Some? then body.filters.value else map[];
        var resultSet := if body.resultSet.Some? then body.resultSet.value else map[];
        var raws := if body.matches.Some? then body.matches.value else [];
        match MapAll(raws)
        case None => Failure(MalformedUpstreamData)
        case Some(matches) => Success(MatchesResponse(filters, resultSet, matches))
  }

  /** A reply without a `matches` field yields an empty list, never an error. */
  lemma AbsentMatchesGiveEmptyList(response: UpstreamResponse)
    requires IsOk(response.status) && response.json.Some? && response.json.value.matches.None?
    ensures FetchMatches(response).Success? && FetchMatches(response).value.matches == []
  {
  }

  // ---------------------------------------------------------------------------
  // The error message

  function DigitChar(d: nat): (c: char)
    requires d < 10
    ensures '0' <= c <= '9'
    ensures c as int - '0' as int == d
  {
    "0123456789"[d]
  }

  /** The number a string of decimal digits denotes, most significant digit first. */
  function DigitsValue(s: string): nat
    requires forall i :: 0 <= i < |s| ==> '0' <= s[i] <= '9'
  {
    if s == [] then 0 else 10 * DigitsValue(s[..|s| - 1]) + (s[|s| - 1] as int - '0' as int)
  }

  /** The decimal digits of `n`, as a template literal prints a non-negative integer: no leading zero. */
  function Decimal(n: nat): (s: string)
    ensures |s| > 0
    ensures forall i :: 0 <= i < |s| ==> '0' <= s[i] <= '9'
    ensures n > 0 ==> s[0] != '0'
    decreases n
  {
    if n < 10 then [DigitChar(n)] else Decimal(n / 10) + [DigitChar(n % 10)]
  }

  /** The printed digits denote `n` again. */
  lemma {:induction false} DecimalValue(n: nat)
    ensures DigitsValue(Decimal(n)) == n
    decreases n
  {
    var s := Decimal(n);
    if n < 10 {
      assert s[..0] == [];
    } else {
      DecimalValue(n / 10);
      assert s[..|s| - 1] == Decimal(n / 10);
    }
  }

  const MESSAGE_PREFIX := "External API responded with "

  /** `External API responded with ${status}: ${text}` — the message of the thrown error. */
  function ErrorMessage(e: ApiError): (m: string)
    requires e.UpstreamHttpError?
    ensures |m| == |MESSAGE_PREFIX| + |Decimal(e.status)| + 2 + |e.body|
    ensures m[..|MESSAGE_PREFIX|] == MESSAGE_PREFIX
    ensures m[|m| - |e.body|..] == e.body
  {
    var m := MESSAGE_PREFIX + Decimal(e.status) + ": " + e.body;
    assert m[..|MESSAGE_PREFIX|] == MESSAGE_PREFIX;
    assert m[|m| - |e.body|..] == e.body;
    m
  }

  /** The status reads back from the message: the digits between the prefix and the colon. */
  lemma ErrorMessageCarriesStatus(e: ApiError)
    requires e.UpstreamHttpError?
    ensures var m := ErrorMessage(e); var d := Decimal(e.status);
      m[|MESSAGE_PREFIX|..|MESSAGE_PREFIX| + |d|] == d && m[|MESSAGE_PREFIX| + |d|] == ':' &&
      DigitsValue(m[|MESSAGE_PREFIX|..|MESSAGE_PREFIX| + |d|]) == e.status
  {
    DecimalValue(e.status);
    var d := Decimal(e.status);
    var m := MESSAGE_PREFIX + d + ": " + e.body;
    assert m[|MESSAGE_PREFIX|..|MESSAGE_PREFIX| + |d|] == d;
  }
}
