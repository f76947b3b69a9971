/**
 * The flat records exchanged between the backend and the browser
 * (backend/src/types/matches.ts and frontend/src/types/matches.ts).
 */
module MatchTypes {

  /** `Record<string, unknown>`; the values are abstracted to their text. */
  type Dict = map<string, string>

  datatype Team = Team(id: int, name: string, shortName: string, crest: string)

  datatype Area = Area(id: int, name: string, code: string, flag: string)

  datatype Competition = Competition(id: int, name: string, code: string, emblem: string)

  /** One upstream fixture. */
  datatype Match = Match(
    id: int,
    utcDate: string,
    homeTeam: Team,
    awayTeam: Team,
    area: Area,
    competition: Competition)

  /** The body of `GET /api/matches`. */
  datatype MatchesResponse = MatchesResponse(filters: Dict, resultSet: Dict, matches: seq<Match>)

  datatype SquadMember = SquadMember(
    id: int,
    name: string,
    position: string,
    dateOfBirth: string,
    nationality: string)

  datatype DetailTeam = DetailTeam(id: int, name: string, shortName: string, crest: string, squad: seq<SquadMember>)

  /** `{ score: { fullTime: { home, away } } }`, flattened. */
  datatype Prediction = Prediction(fullTimeHome: int, fullTimeAway: int)

  /** The record shown on a match page. */
  datatype MatchDetail = MatchDetail(
    id: int,
    utcDate: string,
    homeTeam: DetailTeam,
    awayTeam: DetailTeam,
    area: Area,
    competition: Competition,
    prediction: Prediction)
}
