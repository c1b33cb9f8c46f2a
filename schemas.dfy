/**
 * The records the comparison works on, as the API's response schemas
 * describe them (src/schemas/character.ts and the episode schema).
 * Checking a raw JSON value against a schema is not modelled here: callers
 * receive it as a function parameter (see Adapters).
 */
module Schemas {
  import opened Wrappers

  datatype Status = Alive | Dead | UnknownStatus

  datatype Gender = Female | Male | Genderless | UnknownGender

  datatype Place = Place(name: string, url: string)

  /** A character; `episode` lists the URLs of the episodes it appears in. */
  datatype Character = Character(
    id: int,
    name: string,
    status: Status,
    species: string,
    characterType: Option<string>,
    gender: Gender,
    origin: Place,
    location: Place,
    image: string,
    episode: seq<string>,
    url: string,
    created: string)

  /** An episode; `episode` is its season/episode code such as "S01E01". */
  datatype Episode = Episode(
    id: int,
    name: string,
    airDate: string,
    episode: string,
    characters: seq<string>,
    url: string,
    created: string)
}
